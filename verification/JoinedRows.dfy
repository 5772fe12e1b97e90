/**
 The rows a join writes, and how buffered rows are split into two index buffers.
 */
module JoinedRows {
  import opened Tables

  /** A row that has been requested but not yet written: a match of two input rows, or a row of
      the left input without a counterpart. */
  datatype Pending = Match(left: nat, right: nat) | LeftOnly(left: nat)

  datatype TargetIndexAndRowIndices = TargetIndexAndRowIndices(targetIndex: nat, left: nat, right: nat)

  datatype TargetIndexAndRowIndex = TargetIndexAndRowIndex(targetIndex: nat, row: nat)

  /** The shape of a join: both inputs start with the join columns, which may be left out. */
  datatype Shape = Shape(numJoinColumns: nat, leftColumns: nat, rightColumns: nat, keepJoinColumns: bool) {
    ghost predicate Valid() {
      numJoinColumns <= leftColumns && numJoinColumns <= rightColumns
    }

    function Width(): nat
      requires numJoinColumns <= leftColumns && numJoinColumns <= rightColumns
    {
      (if keepJoinColumns then numJoinColumns else 0) + (leftColumns - numJoinColumns) + (rightColumns - numJoinColumns)
    }
  }

  // ---- Rows of the result -----------------------------------------------------------------------

  /** The defined one of two values that are equal unless one of them is undefined. */
  function JoinValue(a: Id, b: Id): Id {
    if a == UNDEF then b else a
  }

  /** Join columns first, then the payload of the left and of the right row. */
  function JoinRow(shape: Shape, left: Row, right: Row): (r: Row)
    requires shape.Valid() && |left| == shape.leftColumns && |right| == shape.rightColumns
    ensures |r| == shape.Width()
  {
    var j := shape.numJoinColumns;
    (if shape.keepJoinColumns then seq(j, c requires 0 <= c < j => JoinValue(left[c], right[c])) else [])
    + left[j..] + right[j..]
  }

  function UndefRow(width: nat): (r: Row)
    ensures |r| == width
  {
    seq(width, c => UNDEF)
  }

  ghost predicate InRange(left: Table, right: Table, p: Pending) {
    p.left < left.numRows && (p.Match? ==> p.right < right.numRows)
  }

  ghost function ShapeOf(left: Table, right: Table, numJoinColumns: nat, keepJoinColumns: bool): Shape {
    Shape(numJoinColumns, |left.columns|, |right.columns|, keepJoinColumns)
  }

  /** The row a request stands for; a row without counterpart is joined with undefined values. */
  ghost function Combine(shape: Shape, left: Table, right: Table, p: Pending): (r: Row)
    requires shape.Valid() && left.Valid() && right.Valid() && InRange(left, right, p)
    requires |left.columns| == shape.leftColumns && |right.columns| == shape.rightColumns
    ensures |r| == shape.Width()
  {
    match p
    case Match(a, b) => JoinRow(shape, left.RowAt(a), right.RowAt(b))
    case LeftOnly(a) => JoinRow(shape, left.RowAt(a), UndefRow(shape.rightColumns))
  }

  ghost predicate AllInRange(left: Table, right: Table, ps: seq<Pending>) {
    forall i | 0 <= i < |ps| :: InRange(left, right, ps[i])
  }

  ghost function CombineAll(shape: Shape, left: Table, right: Table, ps: seq<Pending>): (rs: seq<Row>)
    requires shape.Valid() && left.Valid() && right.Valid() && AllInRange(left, right, ps)
    requires |left.columns| == shape.leftColumns && |right.columns| == shape.rightColumns
    ensures |rs| == |ps|
  {
    seq(|ps|, i requires 0 <= i < |ps| => Combine(shape, left, right, ps[i]))
  }

  // ---- The cells of the result --------------------------------------------------------------------

  ghost predicate Fits(shape: Shape, left: Table, right: Table) {
    && shape.Valid() && left.Valid() && right.Valid()
    && |left.columns| == shape.leftColumns && |right.columns| == shape.rightColumns
  }

  /** In a join column, a match has the left value if it is defined and otherwise the right one; a row without
      counterpart has the left value. */
  ghost predicate IsJoinCell(left: seq<Id>, right: seq<Id>, p: Pending, cell: Id)
    requires p.left < |left| && (p.Match? ==> p.right < |right|)
  {
    match p
    case LeftOnly(a) => cell == left[a]
    case Match(a, b) => if left[a] != UNDEF then cell == left[a] else cell == right[b]
  }

  /** The first payload column of the left input, and of the right one, in the result. */
  ghost function LeftPayload(shape: Shape): nat {
    if shape.keepJoinColumns then shape.numJoinColumns else 0
  }

  ghost function RightPayload(shape: Shape): nat
    requires shape.Valid()
  {
    LeftPayload(shape) + (shape.leftColumns - shape.numJoinColumns)
  }

  ghost function RightValue(right: seq<Id>, p: Pending): Id
    requires p.Match? ==> p.right < |right|
  {
    match p
    case LeftOnly(_) => UNDEF
    case Match(_, b) => right[b]
  }

  ghost predicate HasJoinColumns(shape: Shape, left: Table, right: Table, p: Pending, row: Row)
    requires Fits(shape, left, right) && InRange(left, right, p) && |row| == shape.Width()
  {
    shape.keepJoinColumns ==>
      forall c | 0 <= c < shape.numJoinColumns :: IsJoinCell(left.columns[c], right.columns[c], p, row[c])
  }

  ghost predicate HasLeftPayload(shape: Shape, left: Table, right: Table, p: Pending, row: Row)
    requires Fits(shape, left, right) && InRange(left, right, p) && |row| == shape.Width()
  {
    forall col | shape.numJoinColumns <= col < shape.leftColumns ::
      left.columns[col][p.left] == row[LeftPayload(shape) + (col - shape.numJoinColumns)]
  }

  ghost predicate HasRightPayload(shape: Shape, left: Table, right: Table, p: Pending, row: Row)
    requires Fits(shape, left, right) && InRange(left, right, p) && |row| == shape.Width()
  {
    forall col | shape.numJoinColumns <= col < shape.rightColumns ::
      RightValue(right.columns[col], p) == row[RightPayload(shape) + (col - shape.numJoinColumns)]
  }

  /** The row that a request stands for, in terms of the cells of the inputs: join columns, left payload, and
      right payload, which is undefined for a row without counterpart. */
  ghost predicate IsJoined(shape: Shape, left: Table, right: Table, p: Pending, row: Row)
    requires Fits(shape, left, right) && InRange(left, right, p)
  {
    && |row| == shape.Width() && HasJoinColumns(shape, left, right, p, row)
    && HasLeftPayload(shape, left, right, p, row) && HasRightPayload(shape, left, right, p, row)
  }

  lemma JoinRowCells(shape: Shape, l: Row, r: Row)
    requires shape.Valid() && |l| == shape.leftColumns && |r| == shape.rightColumns
    ensures forall c | shape.keepJoinColumns && 0 <= c < shape.numJoinColumns ::
              JoinRow(shape, l, r)[c] == if l[c] != UNDEF then l[c] else r[c]
    ensures forall col | shape.numJoinColumns <= col < shape.leftColumns ::
              l[col] == JoinRow(shape, l, r)[LeftPayload(shape) + (col - shape.numJoinColumns)]
    ensures forall col | shape.numJoinColumns <= col < shape.rightColumns ::
              r[col] == JoinRow(shape, l, r)[RightPayload(shape) + (col - shape.numJoinColumns)]
  {}

  /** The cells of the two rows that are joined; the right row is undefined if there is none. */
  ghost predicate AreCells(left: Table, right: Table, p: Pending, l: Row, r: Row)
    requires left.Valid() && right.Valid() && InRange(left, right, p)
  {
    && |l| == |left.columns| && |r| == |right.columns|
    && (forall c | 0 <= c < |left.columns| :: l[c] == left.columns[c][p.left])
    && forall c | 0 <= c < |right.columns| :: r[c] == RightValue(right.columns[c], p)
  }

  lemma CombineRows(shape: Shape, left: Table, right: Table, p: Pending) returns (l: Row, r: Row)
    requires Fits(shape, left, right) && InRange(left, right, p)
    ensures AreCells(left, right, p, l, r) && Combine(shape, left, right, p) == JoinRow(shape, l, r)
  {
    l := left.RowAt(p.left);
    r := if p.Match? then right.RowAt(p.right) else UndefRow(shape.rightColumns);
  }

  lemma JoinRowIsJoined(shape: Shape, left: Table, right: Table, p: Pending, l: Row, r: Row)
    requires Fits(shape, left, right) && InRange(left, right, p) && AreCells(left, right, p, l, r)
    ensures HasLeftPayload(shape, left, right, p, JoinRow(shape, l, r))
    ensures HasRightPayload(shape, left, right, p, JoinRow(shape, l, r))
  {
    JoinRowCells(shape, l, r);
    hide JoinRow, LeftPayload, RightPayload, RightValue;
  }

  lemma JoinRowHasJoinColumns(shape: Shape, left: Table, right: Table, p: Pending, l: Row, r: Row)
    requires Fits(shape, left, right) && InRange(left, right, p) && AreCells(left, right, p, l, r)
    ensures HasJoinColumns(shape, left, right, p, JoinRow(shape, l, r))
  {
    JoinRowCells(shape, l, r);
    hide JoinRow, LeftPayload, RightPayload;
  }

  lemma CombineIsJoined(shape: Shape, left: Table, right: Table, p: Pending)
    requires Fits(shape, left, right) && InRange(left, right, p)
    ensures IsJoined(shape, left, right, p, Combine(shape, left, right, p))
  {
    var l, r := CombineRows(shape, left, right, p);
    hide Combine, JoinRow, AreCells, HasJoinColumns, HasLeftPayload, HasRightPayload;
    JoinRowIsJoined(shape, left, right, p, l, r);
    JoinRowHasJoinColumns(shape, left, right, p, l, r);
  }

  lemma JoinedUnique(shape: Shape, left: Table, right: Table, p: Pending, a: Row, b: Row)
    requires Fits(shape, left, right) && InRange(left, right, p)
    requires IsJoined(shape, left, right, p, a) && IsJoined(shape, left, right, p, b)
    ensures a == b
  {
    var j := shape.numJoinColumns;
    forall i | 0 <= i < |a|
      ensures a[i] == b[i]
    {
      if LeftPayload(shape) <= i < RightPayload(shape) {
        assert left.columns[i - LeftPayload(shape) + j][p.left] == a[i];
      } else if RightPayload(shape) <= i {
        assert RightValue(right.columns[i - RightPayload(shape) + j], p) == a[i];
      }
    }
  }

  /** The request stands for exactly one row. */
  lemma CombineIff(shape: Shape, left: Table, right: Table, p: Pending, row: Row)
    requires Fits(shape, left, right) && InRange(left, right, p)
    ensures IsJoined(shape, left, right, p, row) <==> row == Combine(shape, left, right, p)
  {
    CombineIsJoined(shape, left, right, p);
    hide IsJoined, Combine;
    if IsJoined(shape, left, right, p, row) {
      JoinedUnique(shape, left, right, p, row, Combine(shape, left, right, p));
    }
  }

  ghost predicate AllJoined(shape: Shape, left: Table, right: Table, ps: seq<Pending>, rows: seq<Row>)
    requires Fits(shape, left, right) && AllInRange(left, right, ps)
  {
    |rows| == |ps| && forall i | 0 <= i < |ps| :: InRange(left, right, ps[i]) && IsJoined(shape, left, right, ps[i], rows[i])
  }

  lemma CombineAllIff(shape: Shape, left: Table, right: Table, ps: seq<Pending>, rows: seq<Row>)
    requires Fits(shape, left, right) && AllInRange(left, right, ps)
    ensures AllJoined(shape, left, right, ps, rows) <==> rows == CombineAll(shape, left, right, ps)
  {
    forall i | 0 <= i < |ps| && |rows| == |ps|
      ensures InRange(left, right, ps[i])
      ensures IsJoined(shape, left, right, ps[i], rows[i]) <==> rows[i] == CombineAll(shape, left, right, ps)[i]
    {
      CombineIff(shape, left, right, ps[i], rows[i]);
    }
    hide IsJoined, Combine;
  }

  /** All pairs, with the second index varying fastest. */
  function Pairs(a: seq<nat>, b: seq<nat>): seq<Pending> {
    if a == [] then [] else PairsWith(a[0], b) + Pairs(a[1..], b)
  }

  function PairsWith(x: nat, b: seq<nat>): (ps: seq<Pending>)
    ensures |ps| == |b|
  {
    seq(|b|, i requires 0 <= i < |b| => Match(x, b[i]))
  }

  lemma {:induction false} PairsSnoc(a: seq<nat>, x: nat, b: seq<nat>)
    ensures Pairs(a + [x], b) == Pairs(a, b) + PairsWith(x, b)
  {
    if a == [] {
      assert (a + [x])[1..] == [];
    } else {
      assert (a + [x])[1..] == a[1..] + [x];
      PairsSnoc(a[1..], x, b);
    }
  }

  lemma {:induction false} PairsSize(a: seq<nat>, b: seq<nat>)
    ensures |Pairs(a, b)| == |a| * |b|
  {
    if a != [] {
      PairsSize(a[1..], b);
      assert |a| * |b| == |b| + (|a| - 1) * |b|;
    }
  }

  // ---- Two index buffers --------------------------------------------------------------------------

  /** The matches among the pending rows, with their positions. */
  ghost function Matches(ps: seq<Pending>): seq<TargetIndexAndRowIndices> {
    if ps == [] then [] else
      var n := |ps| - 1;
      Matches(ps[..n]) + if ps[n].Match? then [TargetIndexAndRowIndices(n, ps[n].left, ps[n].right)] else []
  }

  /** The rows without counterpart among the pending rows, with their positions. */
  ghost function LeftOnlies(ps: seq<Pending>): seq<TargetIndexAndRowIndex> {
    if ps == [] then [] else
      var n := |ps| - 1;
      LeftOnlies(ps[..n]) + if ps[n].LeftOnly? then [TargetIndexAndRowIndex(n, ps[n].left)] else []
  }

  lemma BuffersSnoc(ps: seq<Pending>, p: Pending)
    ensures Matches(ps + [p])
         == Matches(ps) + if p.Match? then [TargetIndexAndRowIndices(|ps|, p.left, p.right)] else []
    ensures LeftOnlies(ps + [p])
         == LeftOnlies(ps) + if p.LeftOnly? then [TargetIndexAndRowIndex(|ps|, p.left)] else []
  {
    assert (ps + [p])[..|ps|] == ps;
  }

  lemma {:induction false} BufferSizes(ps: seq<Pending>)
    ensures |Matches(ps)| + |LeftOnlies(ps)| == |ps|
  {
    if ps != [] {
      BufferSizes(ps[..|ps| - 1]);
    }
  }

  lemma {:induction false} MatchesArePositions(ps: seq<Pending>)
    ensures forall e | e in Matches(ps) :: e.targetIndex < |ps| && ps[e.targetIndex] == Match(e.left, e.right)
    ensures forall i, k | 0 <= i < k < |Matches(ps)| :: Matches(ps)[i].targetIndex < Matches(ps)[k].targetIndex
    ensures forall t | 0 <= t < |ps| && ps[t].Match? :: TargetIndexAndRowIndices(t, ps[t].left, ps[t].right) in Matches(ps)
  {
    if ps != [] {
      MatchesArePositions(ps[..|ps| - 1]);
    }
  }

  lemma {:induction false} LeftOnliesArePositions(ps: seq<Pending>)
    ensures forall e | e in LeftOnlies(ps) :: e.targetIndex < |ps| && ps[e.targetIndex] == LeftOnly(e.row)
    ensures forall i, k | 0 <= i < k < |LeftOnlies(ps)| :: LeftOnlies(ps)[i].targetIndex < LeftOnlies(ps)[k].targetIndex
    ensures forall t | 0 <= t < |ps| && ps[t].LeftOnly? :: TargetIndexAndRowIndex(t, ps[t].left) in LeftOnlies(ps)
  {
    if ps != [] {
      LeftOnliesArePositions(ps[..|ps| - 1]);
    }
  }

  /** The target indices of the two buffers partition the positions of the pending rows: each
      entry names a position of its kind, no position is named twice, and none is left out. */
  lemma {:induction false} BuffersPartition(ps: seq<Pending>)
    ensures |Matches(ps)| + |LeftOnlies(ps)| == |ps|
    ensures forall e | e in Matches(ps) :: e.targetIndex < |ps| && ps[e.targetIndex] == Match(e.left, e.right)
    ensures forall e | e in LeftOnlies(ps) :: e.targetIndex < |ps| && ps[e.targetIndex] == LeftOnly(e.row)
    ensures forall i, k | 0 <= i < k < |Matches(ps)| :: Matches(ps)[i].targetIndex < Matches(ps)[k].targetIndex
    ensures forall i, k | 0 <= i < k < |LeftOnlies(ps)| :: LeftOnlies(ps)[i].targetIndex < LeftOnlies(ps)[k].targetIndex
    ensures forall t | 0 <= t < |ps| && ps[t].Match? :: TargetIndexAndRowIndices(t, ps[t].left, ps[t].right) in Matches(ps)
    ensures forall t | 0 <= t < |ps| && ps[t].LeftOnly? :: TargetIndexAndRowIndex(t, ps[t].left) in LeftOnlies(ps)
  {
    MatchesArePositions(ps);
    LeftOnliesArePositions(ps);
    BufferSizes(ps);
  }

  // ---- Undefined values ---------------------------------------------------------------------------

  ghost function CountUndef(ids: seq<Id>): nat {
    if ids == [] then 0 else CountUndef(ids[..|ids| - 1]) + if ids[|ids| - 1] == UNDEF then 1 else 0
  }

  lemma {:induction false} CountUndefAppend(a: seq<Id>, b: seq<Id>)
    ensures CountUndef(a + b) == CountUndef(a) + CountUndef(b)
  {
    if b == [] {
      assert a + b == a;
    } else {
      assert (a + b)[..|a + b| - 1] == a + b[..|b| - 1];
      CountUndefAppend(a, b[..|b| - 1]);
    }
  }
}
