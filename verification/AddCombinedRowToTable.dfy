/**
 Buffered writing of join results into a column-based table: matching rows are first recorded as
 indices, and written column by column when the buffer is full or the input changes.
 */
module AddCombinedRowToTable {
  import opened Tables
  import opened JoinedRows

  // ---- Writing one column -------------------------------------------------------------------------

  ghost predicate Covers(value: Pending --> Id, ps: seq<Pending>) {
    forall i | 0 <= i < |ps| :: value.requires(ps[i])
  }

  ghost function Values(value: Pending --> Id, ps: seq<Pending>): (ids: seq<Id>)
    requires Covers(value, ps)
    ensures |ids| == |ps|
  {
    seq(|ps|, i requires 0 <= i < |ps| => value(ps[i]))
  }

  function MatchesAsPending(es: seq<TargetIndexAndRowIndices>): (ps: seq<Pending>)
    ensures |ps| == |es|
  {
    seq(|es|, i requires 0 <= i < |es| => Match(es[i].left, es[i].right))
  }

  function LeftOnliesAsPending(es: seq<TargetIndexAndRowIndex>): (ps: seq<Pending>)
    ensures |ps| == |es|
  {
    seq(|es|, i requires 0 <= i < |es| => LeftOnly(es[i].row))
  }

  lemma ValuesSnoc(value: Pending --> Id, ps: seq<Pending>, p: Pending)
    requires Covers(value, ps) && value.requires(p)
    ensures Covers(value, ps + [p]) && Values(value, ps + [p]) == Values(value, ps) + [value(p)]
    ensures CountUndef(Values(value, ps + [p])) == CountUndef(Values(value, ps)) + if value(p) == UNDEF then 1 else 0
  {
    var v := Values(value, ps) + [value(p)];
    assert Values(value, ps + [p]) == v;
    assert v[..|v| - 1] == Values(value, ps);
  }

  /** Counting undefined values buffer by buffer or row by row makes no difference. */
  lemma {:induction false} CountBuffers(value: Pending --> Id, ps: seq<Pending>)
    requires Covers(value, ps)
    ensures Covers(value, MatchesAsPending(Matches(ps))) && Covers(value, LeftOnliesAsPending(LeftOnlies(ps)))
    ensures CountUndef(Values(value, MatchesAsPending(Matches(ps))))
          + CountUndef(Values(value, LeftOnliesAsPending(LeftOnlies(ps))))
         == CountUndef(Values(value, ps))
  {
    if ps != [] {
      var rest, p := ps[..|ps| - 1], ps[|ps| - 1];
      assert ps == rest + [p];
      CountBuffers(value, rest);
      BuffersSnoc(rest, p);
      ValuesSnoc(value, rest, p);
      assert Matches(rest) + [] == Matches(rest) && LeftOnlies(rest) + [] == LeftOnlies(rest);
      if p.Match? {
        assert MatchesAsPending(Matches(ps)) == MatchesAsPending(Matches(rest)) + [p];
        ValuesSnoc(value, MatchesAsPending(Matches(rest)), p);
      } else {
        assert LeftOnliesAsPending(LeftOnlies(ps)) == LeftOnliesAsPending(LeftOnlies(rest)) + [p];
        ValuesSnoc(value, LeftOnliesAsPending(LeftOnlies(rest)), p);
      }
    }
  }

  /** Cell `t` behind the old cells holds the value of pending row `t`. */
  ghost predicate Right(cells: seq<Id>, oldSize: nat, ps: seq<Pending>, value: Pending --> Id, t: nat)
    requires Covers(value, ps)
  {
    t < |ps| && oldSize + t < |cells| && cells[oldSize + t] == value(ps[t])
  }

  /** Writes the values of one index buffer into the cells it names and counts the undefined ones. */
  method WriteBuffer(cells: array<Id>, oldSize: nat, targets: seq<nat>, rows: seq<Pending>, value: Pending --> Id,
                     ghost ps: seq<Pending>)
    returns (numUndef: nat)
    requires Covers(value, ps) && cells.Length == oldSize + |ps|
    requires |targets| == |rows| && forall i | 0 <= i < |targets| :: targets[i] < |ps| && ps[targets[i]] == rows[i]
    modifies cells
    ensures cells[..oldSize] == old(cells[..oldSize])
    ensures forall t | t in targets :: Right(cells[..], oldSize, ps, value, t)
    ensures forall t | Right(old(cells[..]), oldSize, ps, value, t) :: Right(cells[..], oldSize, ps, value, t)
    ensures Covers(value, rows) && numUndef == CountUndef(Values(value, rows))
  {
    forall i | 0 <= i < |rows|
      ensures value.requires(rows[i])
    {
      assert value.requires(ps[targets[i]]);
    }
    numUndef := 0;
    for k := 0 to |rows|
      invariant cells[..oldSize] == old(cells[..oldSize])
      invariant forall i | 0 <= i < k :: Right(cells[..], oldSize, ps, value, targets[i])
      invariant forall t | Right(old(cells[..]), oldSize, ps, value, t) :: Right(cells[..], oldSize, ps, value, t)
      invariant numUndef == CountUndef(Values(value, rows[..k]))
    {
      var id := value(rows[k]);
      assert rows[..k + 1] == rows[..k] + [rows[k]];
      ValuesSnoc(value, rows[..k], rows[k]);
      numUndef := numUndef + if id == UNDEF then 1 else 0;
      cells[oldSize + targets[k]] := id;
    }
    assert rows[..|rows|] == rows;
  }

  function MatchTargets(es: seq<TargetIndexAndRowIndices>): (ts: seq<nat>)
    ensures |ts| == |es|
  {
    seq(|es|, i requires 0 <= i < |es| => es[i].targetIndex)
  }

  function LeftOnlyTargets(es: seq<TargetIndexAndRowIndex>): (ts: seq<nat>)
    ensures |ts| == |es|
  {
    seq(|es|, i requires 0 <= i < |es| => es[i].targetIndex)
  }

  /** The buffers record each pending row under its position, and together they name every position. */
  lemma BufferTargets(ps: seq<Pending>)
    ensures var m, l := MatchTargets(Matches(ps)), LeftOnlyTargets(LeftOnlies(ps));
            && |m| + |l| == |ps|
            && (forall i | 0 <= i < |m| :: m[i] < |ps| && ps[m[i]] == MatchesAsPending(Matches(ps))[i])
            && (forall i | 0 <= i < |l| :: l[i] < |ps| && ps[l[i]] == LeftOnliesAsPending(LeftOnlies(ps))[i])
            && (forall t: nat | t < |ps| :: t in m || t in l)
  {
    BuffersPartition(ps);
    var m, l := MatchTargets(Matches(ps)), LeftOnlyTargets(LeftOnlies(ps));
    forall t: nat | t < |ps|
      ensures t in m || t in l
    {
      if ps[t].Match? {
        var i :| 0 <= i < |m| && Matches(ps)[i] == TargetIndexAndRowIndices(t, ps[t].left, ps[t].right);
        assert m[i] == t;
      } else {
        var i :| 0 <= i < |l| && LeftOnlies(ps)[i] == TargetIndexAndRowIndex(t, ps[t].left);
        assert l[i] == t;
      }
    }
    forall i | 0 <= i < |m|
      ensures m[i] < |ps| && ps[m[i]] == MatchesAsPending(Matches(ps))[i]
    {
      assert Matches(ps)[i] in Matches(ps);
    }
    forall i | 0 <= i < |l|
      ensures l[i] < |ps| && ps[l[i]] == LeftOnliesAsPending(LeftOnlies(ps))[i]
    {
      assert LeftOnlies(ps)[i] in LeftOnlies(ps);
    }
  }

  /** Writes the cells of one result column behind the cells already there, first for the matches
      and then for the rows without counterpart, each at the index recorded for it. */
  method WriteColumn(column: seq<Id>, matches: seq<TargetIndexAndRowIndices>, leftOnlies: seq<TargetIndexAndRowIndex>,
                     value: Pending --> Id, ghost ps: seq<Pending>)
    returns (result: seq<Id>, numUndef: nat)
    requires Covers(value, ps) && matches == Matches(ps) && leftOnlies == LeftOnlies(ps)
    ensures result == column + Values(value, ps)
    ensures numUndef == CountUndef(Values(value, ps))
  {
    BufferTargets(ps);
    CountBuffers(value, ps);
    var oldSize := |column|;
    var cells := new Id[oldSize + |matches| + |leftOnlies|](i => if 0 <= i < |column| then column[i] else UNDEF);
    assert cells[..oldSize] == column;
    numUndef := WriteBuffer(cells, oldSize, MatchTargets(matches), MatchesAsPending(matches), value, ps);
    var more := WriteBuffer(cells, oldSize, LeftOnlyTargets(leftOnlies), LeftOnliesAsPending(leftOnlies), value, ps);
    numUndef := numUndef + more;
    result := cells[..];
    AllRight(column, result, ps, value);
  }

  lemma AllRight(column: seq<Id>, cells: seq<Id>, ps: seq<Pending>, value: Pending --> Id)
    requires Covers(value, ps) && |cells| == |column| + |ps| && cells[..|column|] == column
    requires forall t: nat | t < |ps| :: Right(cells, |column|, ps, value, t)
    ensures cells == column + Values(value, ps)
  {
    forall t: nat | t < |ps|
      ensures cells[|column|..][t] == Values(value, ps)[t]
    {
      assert Right(cells, |column|, ps, value, t);
    }
    assert cells == cells[..|column|] + cells[|column|..];
  }

  // ---- Writing all columns --------------------------------------------------------------------------

  predicate MatchBelow(p: Pending, n: nat) {
    p.Match? ==> p.right < n
  }

  function JoinCellOf(left: seq<Id>, right: seq<Id>, p: Pending): Id
    requires p.left < |left| && MatchBelow(p, |right|)
  {
    if p.Match? then JoinValue(left[p.left], right[p.right]) else left[p.left]
  }

  function RightCellOf(right: seq<Id>, p: Pending): Id
    requires MatchBelow(p, |right|)
  {
    if p.Match? then right[p.right] else UNDEF
  }

  /** The cells of a join column; a row without counterpart takes the left value. */
  function JoinCell(left: seq<Id>, right: seq<Id>): Pending --> Id {
    (p: Pending) requires p.left < |left| && MatchBelow(p, |right|) =>
      JoinCellOf(left, right, p)
  }

  function LeftCell(left: seq<Id>): Pending --> Id {
    (p: Pending) requires p.left < |left| => left[p.left]
  }

  /** The cells of a payload column of the right input; undefined for rows without counterpart. */
  function RightCell(right: seq<Id>): Pending --> Id {
    (p: Pending) requires MatchBelow(p, |right|) =>
      RightCellOf(right, p)
  }

  ghost function ColumnOf(rows: seq<Row>, c: nat): (ids: seq<Id>)
    ensures |ids| == |rows|
  {
    seq(|rows|, i requires 0 <= i < |rows| => if c < |rows[i]| then rows[i][c] else UNDEF)
  }

  /** The number of undefined values in column `c`. */
  ghost function UndefInColumn(rows: seq<Row>, c: nat): nat {
    CountUndef(ColumnOf(rows, c))
  }

  lemma UndefInColumnAppend(a: seq<Row>, b: seq<Row>, c: nat)
    ensures UndefInColumn(a + b, c) == UndefInColumn(a, c) + UndefInColumn(b, c)
  {
    assert ColumnOf(a + b, c) == ColumnOf(a, c) + ColumnOf(b, c);
    CountUndefAppend(ColumnOf(a, c), ColumnOf(b, c));
  }

  lemma ValuesAreColumn(shape: Shape, left: Table, right: Table, ps: seq<Pending>, value: Pending --> Id, c: nat)
    requires Fits(shape, left, right) && AllInRange(left, right, ps)
    requires Covers(value, ps) && c < shape.Width()
    requires forall i | 0 <= i < |ps| :: value(ps[i]) == Combine(shape, left, right, ps[i])[c]
    ensures Values(value, ps) == ColumnOf(CombineAll(shape, left, right, ps), c)
  {}

  /** `value` yields the cells of column `c` of the combined rows. */
  ghost predicate Yields(shape: Shape, left: Table, right: Table, ps: seq<Pending>, value: Pending --> Id, c: nat)
    requires Fits(shape, left, right) && AllInRange(left, right, ps)
  {
    && c < shape.Width() && Covers(value, ps)
    && forall i | 0 <= i < |ps| :: value(ps[i]) == Combine(shape, left, right, ps[i])[c]
  }

  lemma JoinCellYields(shape: Shape, left: Table, right: Table, ps: seq<Pending>, col: nat)
    requires Fits(shape, left, right) && AllInRange(left, right, ps)
    requires shape.keepJoinColumns && col < shape.numJoinColumns
    ensures Yields(shape, left, right, ps, JoinCell(left.columns[col], right.columns[col]), col)
  {}

  lemma LeftCellYields(shape: Shape, left: Table, right: Table, ps: seq<Pending>, col: nat, c: nat)
    requires Fits(shape, left, right) && AllInRange(left, right, ps)
    requires shape.numJoinColumns <= col < shape.leftColumns
    requires c == (if shape.keepJoinColumns then shape.numJoinColumns else 0) + col - shape.numJoinColumns
    ensures Yields(shape, left, right, ps, LeftCell(left.columns[col]), c)
  {
    var value := LeftCell(left.columns[col]);
    forall i | 0 <= i < |ps|
      ensures value.requires(ps[i]) && value(ps[i]) == Combine(shape, left, right, ps[i])[c]
    {
      assert InRange(left, right, ps[i]);
      LeftCellIs(shape, left, right, ps[i], col, c);
    }
  }

  lemma LeftCellIs(shape: Shape, left: Table, right: Table, p: Pending, col: nat, c: nat)
    requires Fits(shape, left, right) && InRange(left, right, p)
    requires shape.numJoinColumns <= col < shape.leftColumns
    requires c == (if shape.keepJoinColumns then shape.numJoinColumns else 0) + col - shape.numJoinColumns
    ensures c < shape.Width() && p.left < |left.columns[col]|
    ensures left.columns[col][p.left] == Combine(shape, left, right, p)[c]
  {
    var l := left.RowAt(p.left);
    var r := if p.Match? then right.RowAt(p.right) else UndefRow(shape.rightColumns);
    assert left.columns[col][p.left] == l[col];
    LeftColumnOf(shape, l, r, col, c);
  }

  lemma LeftColumnOf(shape: Shape, l: Row, r: Row, col: nat, c: nat)
    requires shape.Valid() && |l| == shape.leftColumns && |r| == shape.rightColumns
    requires shape.numJoinColumns <= col < shape.leftColumns
    requires c == (if shape.keepJoinColumns then shape.numJoinColumns else 0) + col - shape.numJoinColumns
    ensures JoinRow(shape, l, r)[c] == l[col]
  {}

  lemma RightCellYields(shape: Shape, left: Table, right: Table, ps: seq<Pending>, col: nat, c: nat)
    requires Fits(shape, left, right) && AllInRange(left, right, ps)
    requires shape.numJoinColumns <= col < shape.rightColumns
    requires c == (if shape.keepJoinColumns then shape.numJoinColumns else 0) + (shape.leftColumns - shape.numJoinColumns)
                  + col - shape.numJoinColumns
    ensures Yields(shape, left, right, ps, RightCell(right.columns[col]), c)
  {
    var value := RightCell(right.columns[col]);
    forall i | 0 <= i < |ps|
      ensures value.requires(ps[i]) && value(ps[i]) == Combine(shape, left, right, ps[i])[c]
    {
      assert InRange(left, right, ps[i]);
      RightCellIs(shape, left, right, ps[i], col, c);
    }
  }

  lemma RightCellIs(shape: Shape, left: Table, right: Table, p: Pending, col: nat, c: nat)
    requires Fits(shape, left, right) && InRange(left, right, p)
    requires shape.numJoinColumns <= col < shape.rightColumns
    requires c == (if shape.keepJoinColumns then shape.numJoinColumns else 0) + (shape.leftColumns - shape.numJoinColumns)
                  + col - shape.numJoinColumns
    ensures c < shape.Width() && MatchBelow(p, |right.columns[col]|)
    ensures RightCellOf(right.columns[col], p) == Combine(shape, left, right, p)[c]
  {
    var l := left.RowAt(p.left);
    var r := if p.Match? then right.RowAt(p.right) else UndefRow(shape.rightColumns);
    assert RightCellOf(right.columns[col], p) == r[col];
    RightColumnOf(shape, l, r, col, c);
  }

  lemma RightColumnOf(shape: Shape, l: Row, r: Row, col: nat, c: nat)
    requires shape.Valid() && |l| == shape.leftColumns && |r| == shape.rightColumns
    requires shape.numJoinColumns <= col < shape.rightColumns
    requires c == (if shape.keepJoinColumns then shape.numJoinColumns else 0) + (shape.leftColumns - shape.numJoinColumns)
                  + col - shape.numJoinColumns
    ensures JoinRow(shape, l, r)[c] == r[col]
  {}

  /** The columns of the result before and after: the first `n` of them have received their part of
      the new rows, and their undefined values have been counted. */
  ghost predicate Extended(before: seq<seq<Id>>, counts: seq<nat>, after: seq<seq<Id>>, newCounts: seq<nat>,
                           rows: seq<Row>, n: nat)
  {
    && |after| == n <= |before| && |newCounts| == n <= |counts|
    && forall c | 0 <= c < n ::
      after[c] == before[c] + ColumnOf(rows, c) && newCounts[c] == counts[c] + UndefInColumn(rows, c)
  }

  method ExtendColumn(before: seq<seq<Id>>, counts: seq<nat>, after: seq<seq<Id>>, newCounts: seq<nat>,
                      matches: seq<TargetIndexAndRowIndices>, leftOnlies: seq<TargetIndexAndRowIndex>,
                      value: Pending --> Id, ghost ps: seq<Pending>,
                      ghost shape: Shape, ghost left: Table, ghost right: Table)
    returns (after': seq<seq<Id>>, newCounts': seq<nat>)
    requires Fits(shape, left, right) && AllInRange(left, right, ps)
    requires matches == Matches(ps) && leftOnlies == LeftOnlies(ps)
    requires |before| == |counts| == shape.Width() && |after| < shape.Width()
    requires Extended(before, counts, after, newCounts, CombineAll(shape, left, right, ps), |after|)
    requires Yields(shape, left, right, ps, value, |after|)
    ensures |after'| == |after| + 1
    ensures Extended(before, counts, after', newCounts', CombineAll(shape, left, right, ps), |after'|)
  {
    var next := |after|;
    var column, numUndef := WriteColumn(before[next], matches, leftOnlies, value, ps);
    ValuesAreColumn(shape, left, right, ps, value, next);
    after' := after + [column];
    newCounts' := newCounts + [counts[next] + numUndef];
  }

  /** Writes all buffered rows: the join columns, then the payload of the left and of the right. */
  method WriteRows(table: Table, counts: seq<nat>, shape: Shape, left: Table, right: Table,
                   matches: seq<TargetIndexAndRowIndices>, leftOnlies: seq<TargetIndexAndRowIndex>,
                   numRows: nat, ghost ps: seq<Pending>)
    returns (result: Table, newCounts: seq<nat>)
    requires Fits(shape, left, right) && AllInRange(left, right, ps) && table.Valid()
    requires |table.columns| == |counts| == shape.Width() && numRows == |ps|
    requires shape.Width() > 0 ==> matches == Matches(ps) && leftOnlies == LeftOnlies(ps)
    ensures result.Valid() && |result.columns| == |newCounts| == shape.Width()
    ensures result.Rows() == table.Rows() + CombineAll(shape, left, right, ps)
    ensures AllJoined(shape, left, right, ps, result.Rows()[table.numRows..])
    ensures forall c | 0 <= c < |counts| ::
      newCounts[c] == counts[c] + UndefInColumn(CombineAll(shape, left, right, ps), c)
  {
    ghost var rows := CombineAll(shape, left, right, ps);
    var columns: seq<seq<Id>> := [];
    newCounts := [];
    var j := shape.numJoinColumns;
    for col := 0 to j
      invariant |columns| == if shape.keepJoinColumns then col else 0
      invariant Extended(table.columns, counts, columns, newCounts, rows, |columns|)
    {
      if shape.keepJoinColumns {
        JoinCellYields(shape, left, right, ps, col);
        columns, newCounts := ExtendColumn(table.columns, counts, columns, newCounts, matches, leftOnlies,
                                           JoinCell(left.columns[col], right.columns[col]), ps, shape, left, right);
      }
    }
    ghost var base := if shape.keepJoinColumns then j else 0;
    for col := j to shape.leftColumns
      invariant |columns| == base + col - j
      invariant Extended(table.columns, counts, columns, newCounts, rows, |columns|)
    {
      LeftCellYields(shape, left, right, ps, col, |columns|);
      columns, newCounts := ExtendColumn(table.columns, counts, columns, newCounts, matches, leftOnlies,
                                         LeftCell(left.columns[col]), ps, shape, left, right);
    }
    base := base + shape.leftColumns - j;
    for col := j to shape.rightColumns
      invariant |columns| == base + col - j
      invariant Extended(table.columns, counts, columns, newCounts, rows, |columns|)
    {
      RightCellYields(shape, left, right, ps, col, |columns|);
      columns, newCounts := ExtendColumn(table.columns, counts, columns, newCounts, matches, leftOnlies,
                                         RightCell(right.columns[col]), ps, shape, left, right);
    }
    result := Table(columns, table.numRows + numRows);
    ExtendedRows(table, result, counts, newCounts, rows, shape.Width());
    assert result.Rows()[table.numRows..] == rows;
    CombineAllIff(shape, left, right, ps, rows);
  }

  lemma ExtendedRows(table: Table, result: Table, counts: seq<nat>, newCounts: seq<nat>, rows: seq<Row>, width: nat)
    requires table.Valid() && |table.columns| == |counts| == width
    requires result.numRows == table.numRows + |rows|
    requires forall i | 0 <= i < |rows| :: |rows[i]| == width
    requires Extended(table.columns, counts, result.columns, newCounts, rows, width)
    ensures result.Valid() && result.Rows() == table.Rows() + rows
  {
    forall n | 0 <= n < result.numRows
      ensures result.RowAt(n) == (table.Rows() + rows)[n]
    {
      forall c | 0 <= c < width
        ensures result.RowAt(n)[c] == (table.Rows() + rows)[n][c]
      {
        assert result.columns[c] == table.columns[c] + ColumnOf(rows, c);
      }
    }
  }

  // ---- The buffered writer ----------------------------------------------------------------------------

  /** The words that the local ids of a table refer to. */
  type Vocab = set<string>

  datatype Input = Input(table: Table, vocab: Option<Vocab>)

  /** A requested row, together with the words it may refer to. */
  datatype Requested = Requested(row: Row, vocab: Vocab)

  /** What the callback has taken: rows, and the vocabulary handed over with them. */
  datatype Delivery = Delivery(rows: seq<Requested>, vocab: Vocab)

  function VocabOf(vocab: Option<Vocab>): Vocab {
    match vocab
    case Some(v) => v
    case None => {}
  }

  ghost predicate HasWord(vocab: Option<Vocab>, w: string) {
    vocab.Some? && w in vocab.value
  }

  ghost function RowsOf(rs: seq<Requested>): (rows: seq<Row>)
    ensures |rows| == |rs|
  {
    seq(|rs|, i requires 0 <= i < |rs| => rs[i].row)
  }

  ghost predicate Covered(rs: seq<Requested>, vocab: Vocab) {
    forall i | 0 <= i < |rs| :: rs[i].vocab <= vocab
  }

  ghost function Tagged(rows: seq<Row>, vocab: Vocab): (rs: seq<Requested>)
    ensures |rs| == |rows|
  {
    seq(|rows|, i requires 0 <= i < |rows| => Requested(rows[i], vocab))
  }

  ghost function DeliveredRows(ds: seq<Delivery>): seq<Requested> {
    if ds == [] then [] else DeliveredRows(ds[..|ds| - 1]) + ds[|ds| - 1].rows
  }

  lemma CombineAllAppend(shape: Shape, left: Table, right: Table, a: seq<Pending>, b: seq<Pending>, vocab: Vocab)
    requires Fits(shape, left, right) && AllInRange(left, right, a) && AllInRange(left, right, b)
    ensures AllInRange(left, right, a + b)
    ensures Tagged(CombineAll(shape, left, right, a + b), vocab)
         == Tagged(CombineAll(shape, left, right, a), vocab) + Tagged(CombineAll(shape, left, right, b), vocab)
  {}

  lemma RowsOfAppend(a: seq<Requested>, b: seq<Requested>)
    ensures RowsOf(a + b) == RowsOf(a) + RowsOf(b)
  {}

  /** Every requested row is delivered, in the table or buffered, in call order; undefined values are
      counted; and the vocabularies cover the rows they belong to. */
  ghost predicate Consistent(requested: seq<Requested>, delivered: seq<Delivery>, written: seq<Requested>,
                             buffered: seq<Requested>, table: Table, counts: seq<nat>, vocab: Vocab)
  {
    && table.Valid() && |table.columns| == |counts|
    && requested == DeliveredRows(delivered) + written + buffered
    && RowsOf(written) == table.Rows()
    && (forall c | 0 <= c < |counts| :: counts[c] == UndefInColumn(RowsOf(DeliveredRows(delivered) + written), c))
    && (forall i | 0 <= i < |delivered| :: Covered(delivered[i].rows, delivered[i].vocab))
    && Covered(written, vocab)
  }

  lemma DeliverOneMore(delivered: seq<Delivery>, d: Delivery)
    ensures DeliveredRows(delivered + [d]) == DeliveredRows(delivered) + d.rows
  {
    assert (delivered + [d])[..|delivered|] == delivered;
  }

  lemma CoveredOneMore(delivered: seq<Delivery>, d: Delivery)
    requires forall i | 0 <= i < |delivered| :: Covered(delivered[i].rows, delivered[i].vocab)
    requires Covered(d.rows, d.vocab)
    ensures forall i | 0 <= i < |delivered + [d]| :: Covered((delivered + [d])[i].rows, (delivered + [d])[i].vocab)
    ensures Covered([], {})
  {}

  lemma TakingKeeps(requested: seq<Requested>, delivered: seq<Delivery>, written: seq<Requested>,
                    table: Table, counts: seq<nat>, vocab: Vocab)
    requires Consistent(requested, delivered, written, [], table, counts, vocab)
    ensures Consistent(requested, delivered + [Delivery(written, vocab)], [], [], EmptyTable(|counts|), counts, {})
  {
    var after := delivered + [Delivery(written, vocab)];
    DeliverOneMore(delivered, Delivery(written, vocab));
    CoveredOneMore(delivered, Delivery(written, vocab));
    hide DeliveredRows, UndefInColumn, Covered;
    var rows := DeliveredRows(delivered) + written;
    assert rows + [] == rows && DeliveredRows(after) == rows;
    assert requested == DeliveredRows(after) + [] + [];
    assert RowsOf([]) == EmptyTable(|counts|).Rows();
  }

  lemma WritingKeeps(requested: seq<Requested>, delivered: seq<Delivery>, written: seq<Requested>, rows: seq<Row>,
                     table: Table, counts: seq<nat>, vocab: Vocab, inputVocab: Vocab, table': Table, counts': seq<nat>)
    requires Consistent(requested, delivered, written, Tagged(rows, inputVocab), table, counts, vocab)
    requires rows != [] ==> inputVocab <= vocab
    requires table'.Valid() && |table'.columns| == |counts'| == |counts| && table'.Rows() == table.Rows() + rows
    requires forall c | 0 <= c < |counts| :: counts'[c] == counts[c] + UndefInColumn(rows, c)
    ensures Consistent(requested, delivered, written + Tagged(rows, inputVocab), [], table', counts', vocab)
  {
    var new' := Tagged(rows, inputVocab);
    assert RowsOf(new') == rows;
    var before := DeliveredRows(delivered) + written;
    assert DeliveredRows(delivered) + (written + new') == before + new';
    RowsOfAppend(written, new');
    RowsOfAppend(before, new');
    forall c | 0 <= c < |counts|
      ensures counts'[c] == UndefInColumn(RowsOf(before + new'), c)
    {
      UndefInColumnAppend(RowsOf(before), rows, c);
    }
  }

  lemma MergingKeeps(requested: seq<Requested>, delivered: seq<Delivery>, written: seq<Requested>, buffered: seq<Requested>,
                     table: Table, counts: seq<nat>, vocab: Vocab, vocab': Vocab)
    requires Consistent(requested, delivered, written, buffered, table, counts, vocab)
    requires written == [] || vocab <= vocab'
    ensures Consistent(requested, delivered, written, buffered, table, counts, vocab')
  {}

  lemma BufferingKeeps(requested: seq<Requested>, delivered: seq<Delivery>, written: seq<Requested>, buffered: seq<Requested>,
                       table: Table, counts: seq<nat>, vocab: Vocab, more: seq<Requested>)
    requires Consistent(requested, delivered, written, buffered, table, counts, vocab)
    ensures Consistent(requested + more, delivered, written, buffered + more, table, counts, vocab)
  {
    assert requested + more == DeliveredRows(delivered) + written + (buffered + more);
  }

  /** Writing the buffered rows moves them from the buffer to the table. */
  method WriteAndKeep(table: Table, counts: seq<nat>, shape: Shape, left: Table, right: Table,
                      matches: seq<TargetIndexAndRowIndices>, leftOnlies: seq<TargetIndexAndRowIndex>, numRows: nat,
                      ghost ps: seq<Pending>, ghost requested: seq<Requested>, ghost delivered: seq<Delivery>,
                      ghost written: seq<Requested>, ghost vocab: Vocab, ghost inputVocab: Vocab)
    returns (table': Table, counts': seq<nat>, ghost written': seq<Requested>)
    requires Fits(shape, left, right) && AllInRange(left, right, ps) && numRows == |ps| && |counts| == shape.Width()
    requires shape.Width() > 0 ==> matches == Matches(ps) && leftOnlies == LeftOnlies(ps)
    requires Consistent(requested, delivered, written, Tagged(CombineAll(shape, left, right, ps), inputVocab), table, counts, vocab)
    requires ps != [] ==> inputVocab <= vocab
    ensures |counts'| == |counts| && |written'| == |written| + |ps|
    ensures Consistent(requested, delivered, written', [], table', counts', vocab)
  {
    table', counts' := WriteRows(table, counts, shape, left, right, matches, leftOnlies, numRows, ps);
    ghost var rows := CombineAll(shape, left, right, ps);
    WritingKeeps(requested, delivered, written, rows, table, counts, vocab, inputVocab, table', counts');
    written' := written + Tagged(rows, inputVocab);
  }

  function EmptyTable(numColumns: nat): (t: Table)
    ensures t.Valid() && |t.columns| == numColumns && t.Rows() == []
  {
    Table(seq(numColumns, c => []), 0)
  }

  class AddCombinedRowToIdTable {
    const numJoinColumns: nat
    const keepJoinColumns: bool
    const bufferSize: nat
    const numColumns: nat
    var numUndefinedPerColumn: seq<nat>
    var inputLeftAndRight: Option<(Table, Table)>
    var resultTable: Table
    var mergedVocab: Vocab
    var currentVocabs: (Option<Vocab>, Option<Vocab>)
    var indexBuffer: seq<TargetIndexAndRowIndices>
    var optionalIndexBuffer: seq<TargetIndexAndRowIndex>
    var nextIndex: nat

    /** All rows requested so far, in call order, whether delivered, written or still buffered. */
    ghost var requested: seq<Requested>
    /** The blocks the callback has taken. */
    ghost var delivered: seq<Delivery>
    /** The rows in the result table. */
    ghost var written: seq<Requested>
    ghost var pending: seq<Pending>
    ghost var inputVocab: Vocab

    ghost function CurrentVocab(): Vocab
      reads this
    {
      VocabOf(currentVocabs.0) + VocabOf(currentVocabs.1)
    }

    ghost function ShapeWith(left: Table, right: Table): Shape {
      ShapeOf(left, right, numJoinColumns, keepJoinColumns)
    }

    /** The inputs fit together and to the result. */
    ghost predicate Compatible(left: Table, right: Table) {
      Fits(ShapeWith(left, right), left, right) && ShapeWith(left, right).Width() == numColumns
    }

    ghost predicate InputsFit()
      reads this
    {
      match inputLeftAndRight
      case Some((l, r)) => Compatible(l, r) && AllInRange(l, r, pending)
      case None => pending == []
    }

    ghost function Buffered(): seq<Requested>
      reads this
      requires InputsFit()
    {
      match inputLeftAndRight
      case Some((l, r)) => Tagged(CombineAll(ShapeWith(l, r), l, r, pending), inputVocab)
      case None => []
    }

    /** What holds before and after every flush. */
    ghost predicate Core()
      reads this
    {
      && bufferSize > 0 && nextIndex == |pending| && InputsFit()
      && |numUndefinedPerColumn| == numColumns
      && (numColumns > 0 ==> indexBuffer == Matches(pending) && optionalIndexBuffer == LeftOnlies(pending))
      && Consistent(requested, delivered, written, Buffered(), resultTable, numUndefinedPerColumn, mergedVocab)
      && (pending != [] ==> inputVocab <= mergedVocab)
    }

    /** What holds between any two calls. */
    ghost predicate Valid()
      reads this
    {
      && Core()
      && nextIndex < bufferSize
      && (inputLeftAndRight.Some? ==> inputVocab == CurrentVocab() <= mergedVocab)
    }

    constructor (numJoinColumns: nat, numColumns: nat, keepJoinColumns: bool, bufferSize: nat)
      requires bufferSize > 0
      ensures Valid() && requested == [] && inputLeftAndRight.None?
      ensures this.numJoinColumns == numJoinColumns && this.numColumns == numColumns
      ensures this.keepJoinColumns == keepJoinColumns && this.bufferSize == bufferSize
    {
      this.numJoinColumns, this.numColumns := numJoinColumns, numColumns;
      this.keepJoinColumns, this.bufferSize := keepJoinColumns, bufferSize;
      numUndefinedPerColumn := seq(numColumns, c => 0);
      inputLeftAndRight, currentVocabs, mergedVocab := None, (None, None), {};
      resultTable := EmptyTable(numColumns);
      indexBuffer, optionalIndexBuffer, nextIndex := [], [], 0;
      requested, delivered, written, pending, inputVocab := [], [], [], [], {};
    }

    /** The block-wise callback sees the table and the vocabulary; it may take both, or neither. */
    method InvokeCallback()
      requires Core() && pending == []
      modifies this`resultTable, this`mergedVocab, this`written, this`delivered
      ensures Core() && old(delivered) <= delivered
      ensures written == [] || (mergedVocab == old(mergedVocab) && delivered == old(delivered))
    {
      hide Consistent, Buffered;
      var take: bool := *;
      NothingBuffered();
      if take {
        TakingKeeps(requested, delivered, written, resultTable, numUndefinedPerColumn, mergedVocab);
        delivered := delivered + [Delivery(written, mergedVocab)];
        written := [];
        resultTable := EmptyTable(numColumns);
        mergedVocab := {};
        NothingBuffered();
      }
    }

    lemma NothingBuffered()
      requires InputsFit() && pending == []
      ensures Buffered() == [] && Matches(pending) == [] && LeftOnlies(pending) == []
    {}

    /** Writes the buffered rows to the table and lets the callback see it. */
    method Flush()
      requires Core()
      modifies this
      ensures Core() && pending == [] && nextIndex == 0
      ensures requested == old(requested) && old(delivered) <= delivered
      ensures inputLeftAndRight == old(inputLeftAndRight) && inputVocab == old(inputVocab)
      ensures currentVocabs == old(currentVocabs)
      ensures old(CurrentVocab() <= mergedVocab) ==> CurrentVocab() <= mergedVocab
    {
      if nextIndex == 0 {
        return;
      }
      hide Compatible, AllInRange, Tagged, CombineAll, Matches, LeftOnlies, VocabOf;
      WriteBuffered();
      InvokeCallback();
      if resultTable.numRows == 0 {
        ghost var seen := mergedVocab;
        mergedVocab := {};
        mergedVocab := mergedVocab + VocabOf(currentVocabs.0) + VocabOf(currentVocabs.1);
        MergingKeeps(requested, delivered, written, [], resultTable, numUndefinedPerColumn, seen, mergedVocab);
      }
    }

    method WriteBuffered()
      requires Core() && pending != []
      modifies this`resultTable, this`numUndefinedPerColumn, this`indexBuffer, this`optionalIndexBuffer, this`nextIndex,
               this`written, this`pending
      ensures Core() && pending == [] && nextIndex == 0
    {
      hide Consistent, Tagged, CombineAll, Matches, LeftOnlies;
      var (left, right) := inputLeftAndRight.value;
      var shape := Shape(numJoinColumns, |left.columns|, |right.columns|, keepJoinColumns);
      assert Buffered() == Tagged(CombineAll(shape, left, right, pending), inputVocab);
      resultTable, numUndefinedPerColumn, written :=
        WriteAndKeep(resultTable, numUndefinedPerColumn, shape, left, right, indexBuffer, optionalIndexBuffer, nextIndex,
                     pending, requested, delivered, written, mergedVocab, inputVocab);
      indexBuffer, optionalIndexBuffer, nextIndex := [], [], 0;
      pending := [];
      NothingBuffered();
    }

    /** Records the rows of `more` behind the pending ones. */
    ghost method Record(more: seq<Pending>, left: Table, right: Table)
      requires Core() && inputLeftAndRight == Some((left, right)) && AllInRange(left, right, more)
      requires more != [] ==> inputVocab <= mergedVocab
      modifies this`requested, this`pending
      ensures pending == old(pending) + more && InputsFit()
      ensures requested == old(requested) + Tagged(CombineAll(ShapeWith(left, right), left, right, more), inputVocab)
      ensures Consistent(requested, delivered, written, Buffered(), resultTable, numUndefinedPerColumn, mergedVocab)
    {
      var tagged := Tagged(CombineAll(ShapeWith(left, right), left, right, more), inputVocab);
      BufferingKeeps(requested, delivered, written, Buffered(), resultTable, numUndefinedPerColumn, mergedVocab, tagged);
      CombineAllAppend(ShapeWith(left, right), left, right, pending, more, inputVocab);
      requested := requested + tagged;
      pending := pending + more;
    }

    /** The inputs are those of the earlier state, and what was delivered stays delivered. */
    twostate predicate SameInput()
      reads this
    {
      && inputLeftAndRight == old(inputLeftAndRight) && inputVocab == old(inputVocab)
      && currentVocabs == old(currentVocabs) && old(delivered) <= delivered
    }

    ghost predicate CanCombine(more: seq<Pending>)
      reads this
    {
      && inputLeftAndRight.Some?
      && var (l, r) := inputLeftAndRight.value; Compatible(l, r) && AllInRange(l, r, more)
    }

    /** The rows that combine the given rows of the current inputs. */
    ghost function Combined(more: seq<Pending>): seq<Requested>
      reads this
      requires CanCombine(more)
    {
      var (l, r) := inputLeftAndRight.value;
      Tagged(CombineAll(ShapeWith(l, r), l, r, more), inputVocab)
    }

    /** The rows requested since then are those of `more`, each with the words of the inputs. */
    twostate predicate Adds(more: seq<Pending>)
      reads this
      requires CanCombine(more)
    {
      var (l, r) := inputLeftAndRight.value;
      var added := requested[Min(|old(requested)|, |requested|)..];
      && old(requested) <= requested && AllJoined(ShapeWith(l, r), l, r, more, RowsOf(added))
      && forall i | 0 <= i < |added| :: added[i].vocab == inputVocab
    }

    twostate lemma AddsCombined(more: seq<Pending>)
      requires CanCombine(more) && requested == old(requested) + Combined(more)
      ensures Adds(more)
    {
      var (l, r) := inputLeftAndRight.value;
      var added := requested[|old(requested)|..];
      assert added == Combined(more) && RowsOf(added) == CombineAll(ShapeWith(l, r), l, r, more);
      CombineAllIff(ShapeWith(l, r), l, r, more, RowsOf(added));
    }

    /** The next row of the output combines the two given input rows. */
    method AddRow(rowIndexA: nat, rowIndexB: nat)
      requires Valid() && inputLeftAndRight.Some?
      requires rowIndexA < inputLeftAndRight.value.0.numRows && rowIndexB < inputLeftAndRight.value.1.numRows
      modifies this
      ensures Valid() && SameInput()
      ensures CanCombine([Match(rowIndexA, rowIndexB)])
      ensures requested == old(requested) + Combined([Match(rowIndexA, rowIndexB)])
      ensures Adds([Match(rowIndexA, rowIndexB)])
    {
      hide Consistent, Tagged, CombineAll, Matches, LeftOnlies;
      BuffersSnoc(pending, Match(rowIndexA, rowIndexB));
      Record([Match(rowIndexA, rowIndexB)], inputLeftAndRight.value.0, inputLeftAndRight.value.1);
      indexBuffer := indexBuffer + [TargetIndexAndRowIndices(nextIndex, rowIndexA, rowIndexB)];
      nextIndex := nextIndex + 1;
      if nextIndex >= bufferSize {
        Flush();
      }
      AddsCombined([Match(rowIndexA, rowIndexB)]);
    }

    /** The next row of the output extends the given left row by undefined values. */
    method AddOptionalRow(rowIndexA: nat)
      requires Valid() && inputLeftAndRight.Some? && rowIndexA < inputLeftAndRight.value.0.numRows
      modifies this
      ensures Valid() && SameInput()
      ensures CanCombine([LeftOnly(rowIndexA)])
      ensures requested == old(requested) + Combined([LeftOnly(rowIndexA)])
      ensures Adds([LeftOnly(rowIndexA)])
    {
      hide Consistent, Tagged, CombineAll, Matches, LeftOnlies;
      BuffersSnoc(pending, LeftOnly(rowIndexA));
      Record([LeftOnly(rowIndexA)], inputLeftAndRight.value.0, inputLeftAndRight.value.1);
      optionalIndexBuffer := optionalIndexBuffer + [TargetIndexAndRowIndex(nextIndex, rowIndexA)];
      nextIndex := nextIndex + 1;
      if nextIndex >= bufferSize {
        Flush();
      }
      AddsCombined([LeftOnly(rowIndexA)]);
    }

    lemma CombinedAppend(a: seq<Pending>, b: seq<Pending>)
      requires CanCombine(a) && CanCombine(b)
      ensures CanCombine(a + b) && Combined(a + b) == Combined(a) + Combined(b)
    {
      var (l, r) := inputLeftAndRight.value;
      CombineAllAppend(ShapeWith(l, r), l, r, a, b, inputVocab);
    }

    /** As long as the inputs are the same, requests stand for the same rows. */
    twostate lemma SameInputCombines(more: seq<Pending>)
      requires old(CanCombine(more)) && SameInput()
      ensures CanCombine(more) && Combined(more) == old(Combined(more))
    {}

    /** All combinations of the given rows. Without result columns only the number of rows matters. */
    method AddRows(rowIndicesA: seq<nat>, rowIndicesB: seq<nat>)
      requires Valid() && inputLeftAndRight.Some?
      requires forall i | 0 <= i < |rowIndicesA| :: rowIndicesA[i] < inputLeftAndRight.value.0.numRows
      requires forall i | 0 <= i < |rowIndicesB| :: rowIndicesB[i] < inputLeftAndRight.value.1.numRows
      modifies this
      ensures Valid() && SameInput() && CanCombine(Pairs(rowIndicesA, rowIndicesB))
      ensures requested == old(requested) + Combined(Pairs(rowIndicesA, rowIndicesB))
      ensures Adds(Pairs(rowIndicesA, rowIndicesB))
    {
      if numColumns == 0 {
        PairsSize(rowIndicesA, rowIndicesB);
        PairsInRange(inputLeftAndRight.value.0, inputLeftAndRight.value.1, rowIndicesA, rowIndicesB);
        AddRowsWithoutColumns(|rowIndicesA| * |rowIndicesB|, Pairs(rowIndicesA, rowIndicesB));
      } else {
        AddAllRows(rowIndicesA, rowIndicesB);
      }
      AddsCombined(Pairs(rowIndicesA, rowIndicesB));
    }

    lemma NoPairs(rowIndicesA: seq<nat>, rowIndicesB: seq<nat>)
      requires Valid() && inputLeftAndRight.Some?
      ensures CanCombine(Pairs(rowIndicesA[..0], rowIndicesB)) && Combined(Pairs(rowIndicesA[..0], rowIndicesB)) == []
    {}

    method AddAllRows(rowIndicesA: seq<nat>, rowIndicesB: seq<nat>)
      requires Valid() && inputLeftAndRight.Some?
      requires forall i | 0 <= i < |rowIndicesA| :: rowIndicesA[i] < inputLeftAndRight.value.0.numRows
      requires forall i | 0 <= i < |rowIndicesB| :: rowIndicesB[i] < inputLeftAndRight.value.1.numRows
      modifies this
      ensures Valid() && SameInput() && CanCombine(Pairs(rowIndicesA, rowIndicesB))
      ensures requested == old(requested) + Combined(Pairs(rowIndicesA, rowIndicesB))
    {
      hide Consistent, Core, CanCombine, Combined;
      NoPairs(rowIndicesA, rowIndicesB);
      for i := 0 to |rowIndicesA|
        invariant Valid() && SameInput() && CanCombine(Pairs(rowIndicesA[..i], rowIndicesB))
        invariant requested == old(requested) + Combined(Pairs(rowIndicesA[..i], rowIndicesB))
      {
        assert rowIndicesA[..i + 1] == rowIndicesA[..i] + [rowIndicesA[i]];
        PairsSnoc(rowIndicesA[..i], rowIndicesA[i], rowIndicesB);
        label Before:
        AddRowsWith(rowIndicesA[i], rowIndicesB);
        SameInputCombines@Before(Pairs(rowIndicesA[..i], rowIndicesB));
        CombinedAppend(Pairs(rowIndicesA[..i], rowIndicesB), PairsWith(rowIndicesA[i], rowIndicesB));
      }
      assert rowIndicesA[..|rowIndicesA|] == rowIndicesA;
    }

    lemma CombinesParts(all: seq<Pending>)
      requires CanCombine(all)
      ensures CanCombine(all[..0]) && Combined(all[..0]) == []
      ensures forall begin, end | 0 <= begin <= end <= |all| :: CanCombine(all[begin..end])
    {}

    /** Counts rows into the buffer, chunk by chunk, flushing whenever it is full. */
    method AddRowsWithoutColumns(numRows: nat, ghost all: seq<Pending>)
      requires Valid() && numColumns == 0 && numRows == |all| && CanCombine(all)
      modifies this
      ensures Valid() && SameInput() && CanCombine(all)
      ensures requested == old(requested) + Combined(all)
    {
      hide Consistent, Core, CanCombine, Combined;
      var total: nat := numRows;
      CombinesParts(all);
      while total > 0
        invariant total <= numRows
        invariant Valid() && SameInput() && CanCombine(all[..numRows - total]) && CanCombine(all)
        invariant requested == old(requested) + Combined(all[..numRows - total])
        decreases total
      {
        ghost var done := numRows - total;
        var chunkSz := Min(bufferSize - nextIndex, total);
        ghost var chunk := all[done..done + chunkSz];
        assert all[..done + chunkSz] == all[..done] + chunk;
        CombinesParts(all);
        label Before:
        AddChunk(chunkSz, chunk);
        SameInputCombines@Before(all[..done]);
        SameInputCombines@Before(all);
        CombinedAppend(all[..done], chunk);
        total := total - chunkSz;
      }
      assert all[..numRows] == all;
    }

    method AddChunk(chunkSz: nat, ghost chunk: seq<Pending>)
      requires Valid() && numColumns == 0 && chunkSz == |chunk| <= bufferSize - nextIndex && CanCombine(chunk)
      modifies this
      ensures Valid() && SameInput() && CanCombine(chunk)
      ensures requested == old(requested) + Combined(chunk)
    {
      Record(chunk, inputLeftAndRight.value.0, inputLeftAndRight.value.1);
      nextIndex := nextIndex + chunkSz;
      if nextIndex >= bufferSize {
        Flush();
      }
    }

    lemma CanCombineWith(rowIndexA: nat, rowIndicesB: seq<nat>)
      requires Valid() && inputLeftAndRight.Some? && rowIndexA < inputLeftAndRight.value.0.numRows
      requires forall i | 0 <= i < |rowIndicesB| :: rowIndicesB[i] < inputLeftAndRight.value.1.numRows
      ensures CanCombine(PairsWith(rowIndexA, rowIndicesB))
    {
      hide Consistent;
    }

    method AddRowsWith(rowIndexA: nat, rowIndicesB: seq<nat>)
      requires Valid() && inputLeftAndRight.Some? && rowIndexA < inputLeftAndRight.value.0.numRows
      requires forall i | 0 <= i < |rowIndicesB| :: rowIndicesB[i] < inputLeftAndRight.value.1.numRows
      modifies this
      ensures Valid() && SameInput() && CanCombine(PairsWith(rowIndexA, rowIndicesB))
      ensures requested == old(requested) + Combined(PairsWith(rowIndexA, rowIndicesB))
    {
      hide Adds, Valid, Consistent, Core, CanCombine, Combined;
      ghost var all := PairsWith(rowIndexA, rowIndicesB);
      CanCombineWith(rowIndexA, rowIndicesB);
      CombinesParts(all);
      for i := 0 to |rowIndicesB|
        invariant Valid() && SameInput() && CanCombine(all[..i]) && CanCombine(all)
        invariant requested == old(requested) + Combined(all[..i])
      {
        assert all[..i + 1] == all[..i] + [Match(rowIndexA, rowIndicesB[i])];
        label Before:
        AddRow(rowIndexA, rowIndicesB[i]);
        SameInputCombines@Before(all[..i]);
        SameInputCombines@Before(all);
        CombinedAppend(all[..i], [Match(rowIndexA, rowIndicesB[i])]);
      }
      assert all[..|rowIndicesB|] == all;
    }

    /** Before the input changes, everything buffered is written. */
    method FlushBeforeInputChange()
      requires Valid()
      modifies this
      ensures Core() && pending == [] && nextIndex == 0 && currentVocabs == (None, None)
      ensures requested == old(requested) && old(delivered) <= delivered
    {
      currentVocabs := (None, None);
      if nextIndex != 0 {
        Flush();
      } else if resultTable.numRows == 0 {
        assert written == [] && Buffered() == [];
        MergingKeeps(requested, delivered, written, [], resultTable, numUndefinedPerColumn, mergedVocab, {});
        mergedVocab := {};
      }
    }

    /** All following rows refer to the new inputs; what was requested before stays as it is. */
    method SetInput(inputLeft: Input, inputRight: Input)
      requires Valid() && Compatible(inputLeft.table, inputRight.table)
      modifies this
      ensures Valid() && pending == []
      ensures inputLeftAndRight == Some((inputLeft.table, inputRight.table))
      ensures forall w :: w in inputVocab <==> HasWord(inputLeft.vocab, w) || HasWord(inputRight.vocab, w)
      ensures requested == old(requested) && old(delivered) <= delivered
    {
      FlushBeforeInputChange();
      assert Buffered() == [];
      ghost var seen := mergedVocab;
      currentVocabs := (inputLeft.vocab, inputRight.vocab);
      mergedVocab := mergedVocab + VocabOf(inputLeft.vocab) + VocabOf(inputRight.vocab);
      MergingKeeps(requested, delivered, written, [], resultTable, numUndefinedPerColumn, seen, mergedVocab);
      inputLeftAndRight := Some((inputLeft.table, inputRight.table));
      inputVocab := VocabOf(inputLeft.vocab) + VocabOf(inputRight.vocab);
      assert Buffered() == [];
    }

    /** Only optional rows can follow: the right input is empty, with the columns that are missing. */
    method SetOnlyLeftInputForOptionalJoin(inputLeft: Input)
      requires Valid() && inputLeft.table.Valid() && numJoinColumns <= |inputLeft.table.columns|
      requires |inputLeft.table.columns| <= numColumns + if keepJoinColumns then 0 else numJoinColumns
      modifies this
      ensures Valid() && pending == [] && inputLeftAndRight.Some? && inputLeftAndRight.value.0 == inputLeft.table
      ensures inputLeftAndRight.value.1.numRows == 0 && Compatible(inputLeft.table, inputLeftAndRight.value.1)
      ensures forall w :: w in inputVocab <==> HasWord(inputLeft.vocab, w)
      ensures requested == old(requested) && old(delivered) <= delivered
    {
      var rightColumns := numColumns + (if keepJoinColumns then 0 else numJoinColumns) - |inputLeft.table.columns| + numJoinColumns;
      SetInput(inputLeft, Input(EmptyTable(rightColumns), None));
    }

    /** The number of undefined values per column, over all rows requested so far. */
    method NumUndefinedPerColumn() returns (counts: seq<nat>)
      requires Valid()
      modifies this
      ensures Valid() && requested == old(requested) && old(delivered) <= delivered
      ensures |counts| == numColumns && forall c | 0 <= c < numColumns :: counts[c] == UndefInColumn(RowsOf(requested), c)
    {
      Flush();
      assert Buffered() == [];
      assert DeliveredRows(delivered) + written + [] == DeliveredRows(delivered) + written;
      counts := numUndefinedPerColumn;
    }

    /** The rows not delivered before, with a vocabulary that covers them. Delivered blocks and final
        table together are all requested rows in call order. */
    method ToIdTableVocabPair() returns (table: Table, vocab: Vocab, ghost rows: seq<Requested>)
      requires Valid()
      modifies this
      ensures old(delivered) <= delivered && old(requested) == DeliveredRows(delivered) + rows
      ensures table.Valid() && table.Rows() == RowsOf(rows) && Covered(rows, vocab)
      ensures forall i | 0 <= i < |delivered| :: Covered(delivered[i].rows, delivered[i].vocab)
    {
      Flush();
      assert Buffered() == [];
      table, vocab, rows := resultTable, mergedVocab, written;
    }
  }

  lemma {:induction false} PairsInRange(l: Table, r: Table, a: seq<nat>, b: seq<nat>)
    requires forall i | 0 <= i < |a| :: a[i] < l.numRows
    requires forall i | 0 <= i < |b| :: b[i] < r.numRows
    ensures AllInRange(l, r, Pairs(a, b))
  {
    if a != [] {
      PairsInRange(l, r, a[1..], b);
    }
  }
}
