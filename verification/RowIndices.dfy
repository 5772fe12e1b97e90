/**
 Selecting the rows to export from a result that arrives in blocks, under OFFSET, LIMIT and an
 additional limit for the export, while pulling as few blocks as possible.
 */
module RowIndices {
  import opened Tables

  /** This value of a limit means that there is none. */
  const NO_LIMIT: nat := 0xFFFF_FFFF_FFFF_FFFF

  type UInt64 = n: nat | n <= NO_LIMIT

  datatype LimitOffsetClause = LimitOffsetClause(limit: Option<UInt64>, offset: UInt64, exportLimit: Option<UInt64>)

  function OrNoLimit(limit: Option<UInt64>): UInt64 {
    match limit
    case Some(l) => l
    case None => NO_LIMIT
  }

  datatype State = BeforeOffset | OnlyCountForExport | AfterLimit | Export(begin: nat, end: nat, isLast: bool)

  /** Rows `begin .. end - 1` of a block. */
  datatype TableWithRange = TableWithRange(block: nat, begin: nat, end: nat)

  // ---- Specification ------------------------------------------------------------------------------

  function Capped(limit: nat, n: nat): nat {
    if limit == NO_LIMIT then n else Min(limit, n)
  }

  /** How many rows follow the offset. */
  function Beyond(seen: nat, offset: nat): nat {
    if seen <= offset then 0 else seen - offset
  }

  /** The rows the query exports from `rows`. */
  function Window<T>(rows: seq<T>, offset: nat, limit: nat): seq<T> {
    var from := Min(offset, |rows|);
    rows[from..from + Capped(limit, |rows| - from)]
  }

  /** How many of `n` rows a limit leaves: all of them if there is none. The largest number means none, too. */
  ghost function Limited(limit: Option<UInt64>, n: nat): nat {
    match limit
    case None => n
    case Some(l) => if l == 0xFFFF_FFFF_FFFF_FFFF then n else Min(l, n)
  }

  /** The rows behind the offset, as far as both limits go. */
  ghost function SelectedRows<T>(rows: seq<T>, clause: LimitOffsetClause): seq<T> {
    var behind := rows[Min(clause.offset, |rows|)..];
    behind[..Min(Limited(clause.limit, |behind|), Limited(clause.exportLimit, |behind|))]
  }

  lemma WindowIsSelected<T>(rows: seq<T>, clause: LimitOffsetClause)
    ensures var exportLimit := Min(OrNoLimit(clause.exportLimit), OrNoLimit(clause.limit));
            Window(rows, clause.offset, exportLimit) == SelectedRows(rows, clause)
    ensures var n := |rows| - Min(clause.offset, |rows|);
            Capped(OrNoLimit(clause.limit), Beyond(|rows|, clause.offset)) == Limited(clause.limit, n)
  {}

  ghost predicate RangesFit<T>(ranges: seq<TableWithRange>, blocks: seq<seq<T>>) {
    forall i | 0 <= i < |ranges| ::
      ranges[i].block < |blocks| && ranges[i].begin < ranges[i].end <= |blocks[ranges[i].block]|
  }

  ghost function RangeRows<T>(ranges: seq<TableWithRange>, blocks: seq<seq<T>>): seq<T>
    requires RangesFit(ranges, blocks)
  {
    if ranges == [] then [] else
      var r := ranges[|ranges| - 1];
      RangeRows(ranges[..|ranges| - 1], blocks) + blocks[r.block][r.begin..r.end]
  }

  ghost function Seen<T>(blocks: seq<seq<T>>, k: nat): nat
    requires k <= |blocks|
  {
    |Concat(blocks[..k])|
  }

  /** The number of blocks up to and including the first non-empty one from `k` on. */
  ghost function ThroughNonEmpty<T>(blocks: seq<seq<T>>, k: nat): nat
    requires k <= |blocks|
    decreases |blocks| - k
  {
    if k == |blocks| then k else if blocks[k] != [] then k + 1 else ThroughNonEmpty(blocks, k + 1)
  }

  lemma SeenNext<T>(blocks: seq<seq<T>>, k: nat)
    requires k < |blocks|
    ensures Concat(blocks[..k + 1]) == Concat(blocks[..k]) + blocks[k]
    ensures Seen(blocks, k + 1) == Seen(blocks, k) + |blocks[k]|
  {
    assert blocks[..k + 1] == blocks[..k] + [blocks[k]];
    ConcatSnoc(blocks[..k], blocks[k]);
  }

  lemma {:induction false} SeenMonotone<T>(blocks: seq<seq<T>>, j: nat, k: nat)
    requires j <= k <= |blocks|
    ensures Seen(blocks, j) <= Seen(blocks, k)
    decreases k
  {
    if j < k {
      SeenMonotone(blocks, j, k - 1);
      SeenNext(blocks, k - 1);
    }
  }

  // ---- The state that is carried from block to block ------------------------------------------------

  class TableToState {
    var offset: nat
    var limit: nat
    var exportLimit: nat
    var resultSize: nat
    const multiplicator: nat

    constructor (offset: nat, limit: nat, exportLimit: nat, multiplicator: nat)
      ensures this.offset == offset && this.limit == limit && this.exportLimit == exportLimit
      ensures this.multiplicator == multiplicator && resultSize == 0
    {
      this.offset, this.limit, this.exportLimit, this.multiplicator := offset, limit, exportLimit, multiplicator;
      resultSize := 0;
    }

    static function Reduce(limit: nat, subtrahend: nat): nat {
      if limit == NO_LIMIT then limit else if limit > subtrahend then limit - subtrahend else 0
    }

    /** Has to be called once per block, in order. */
    method Next(blockSize: nat) returns (state: State)
      modifies this
      ensures if old(offset) >= blockSize then
                state == BeforeOffset && offset == old(offset) - blockSize
                && limit == old(limit) && exportLimit == old(exportLimit) && resultSize == old(resultSize)
              else if old(limit) == 0 then
                state == AfterLimit && offset == old(offset)
                && limit == 0 && exportLimit == old(exportLimit) && resultSize == old(resultSize)
              else
                var here := blockSize - old(offset);
                var counted := Min(old(limit), here);
                && offset == 0
                && limit == Reduce(old(limit), counted) && exportLimit == Reduce(old(exportLimit), counted)
                && resultSize == old(resultSize) + counted * multiplicator
                && state == if old(exportLimit) == 0 then OnlyCountForExport
                            else Export(old(offset), old(offset) + Min(old(exportLimit), here),
                                        limit == 0 && exportLimit == 0)
    {
      if offset >= blockSize {
        offset := offset - blockSize;
        return BeforeOffset;
      }
      if limit == 0 {
        return AfterLimit;
      }
      var rangeBegin := offset;
      offset := 0;
      var numRowsToBeExported := Min(exportLimit, blockSize - rangeBegin);
      var numRowsToBeCounted := Min(limit, blockSize - rangeBegin);
      resultSize := resultSize + numRowsToBeCounted * multiplicator;
      limit := Reduce(limit, numRowsToBeCounted);
      exportLimit := Reduce(exportLimit, numRowsToBeCounted);
      if numRowsToBeExported == 0 {
        return OnlyCountForExport;
      }
      return Export(rangeBegin, rangeBegin + numRowsToBeExported, limit == 0 && exportLimit == 0);
    }
  }

  /** What the state amounts to after `seen` rows, for the original offset and limits. */
  ghost predicate After(s: TableToState, seen: nat, offset: nat, limit: nat, exportLimit: nat, multiplicator: nat)
    reads s
  {
    var counted := Capped(limit, Beyond(seen, offset));
    && s.multiplicator == multiplicator
    && s.offset == Beyond(offset, seen)
    && s.limit == TableToState.Reduce(limit, counted)
    && s.exportLimit == TableToState.Reduce(exportLimit, counted)
    && s.resultSize == counted * multiplicator
  }

  lemma Multiply(a: nat, b: nat, m: nat)
    ensures a * m + b * m == (a + b) * m
  {}

  // ---- One block ------------------------------------------------------------------------------------

  /** What a block adds to the window, given the state before it. */
  function Exported<T>(state: State, block: seq<T>): seq<T>
    requires state.Export? ==> state.begin <= state.end <= |block|
  {
    match state
    case Export(begin, end, _) => block[begin..end]
    case _ => []
  }

  /** The state machine's step, as a function of the rows seen so far. */
  ghost function StateFor(seen: nat, size: nat, offset: nat, limit: nat, exportLimit: nat): State {
    var beyond := Beyond(seen, offset);
    if Beyond(offset, seen) >= size then BeforeOffset
    else if TableToState.Reduce(limit, beyond) == 0 then AfterLimit
    else
      var left := TableToState.Reduce(exportLimit, beyond);
      var here := size - Beyond(offset, seen);
      if left == 0 then OnlyCountForExport
      else Export(Beyond(offset, seen), Beyond(offset, seen) + Min(left, here),
                  limit != NO_LIMIT && limit <= Beyond(seen + size, offset))
  }

  method Step(s: TableToState, ghost seen: nat, size: nat, ghost offset: nat, ghost limit: nat, ghost exportLimit: nat,
              ghost multiplicator: nat)
    returns (state: State)
    requires After(s, seen, offset, limit, exportLimit, multiplicator)
    requires exportLimit <= limit <= NO_LIMIT && size <= NO_LIMIT
    modifies s
    ensures state == StateFor(seen, size, offset, limit, exportLimit)
    ensures !state.AfterLimit? ==> After(s, seen + size, offset, limit, exportLimit, multiplicator)
    ensures state.AfterLimit? ==> After(s, seen, offset, limit, exportLimit, multiplicator)
    ensures var seen' := if state.AfterLimit? then seen else seen + size;
            s.resultSize == Capped(limit, Beyond(seen', offset)) * multiplicator
  {
    ghost var before := Capped(limit, Beyond(seen, offset));
    ghost var added := Min(s.limit, size - Beyond(offset, seen));
    Multiply(before, if added >= 0 then added else 0, multiplicator);
    state := s.Next(size);
  }

  lemma SliceOfConcat<T>(a: seq<T>, b: seq<T>, from: nat, to: nat)
    requires from <= to <= |a| + |b|
    ensures (a + b)[from..to]
         == if to <= |a| then a[from..to]
            else if from <= |a| then a[from..] + b[..to - |a|]
            else b[from - |a|..to - |a|]
  {}

  /** What the state exports of a block is what the block adds to the window. */
  ghost predicate GrowsRightly<T>(rows: seq<T>, block: seq<T>, offset: nat, limit: nat, exportLimit: nat) {
    var state := StateFor(|rows|, |block|, offset, limit, exportLimit);
    && (state.Export? ==> state.begin < state.end <= |block|)
    && Window(rows + block, offset, exportLimit) == Window(rows, offset, exportLimit) + Exported(state, block)
  }

  /** The window of the rows seen grows by exactly what the state says. */
  lemma WindowGrows<T>(rows: seq<T>, block: seq<T>, offset: nat, limit: nat, exportLimit: nat)
    requires exportLimit <= limit <= NO_LIMIT && |block| <= NO_LIMIT
    ensures var state := StateFor(|rows|, |block|, offset, limit, exportLimit);
            && (state.Export? ==> state.begin < state.end <= |block|)
            && Window(rows + block, offset, exportLimit) == Window(rows, offset, exportLimit) + Exported(state, block)
  {
    assert GrowsRightly(rows, block, offset, limit, exportLimit) by {
      hide GrowsRightly;
      if offset < |rows| {
        WindowGrowsBefore(rows, block, offset, limit, exportLimit);
      } else {
        WindowGrowsBehind(rows, block, offset, limit, exportLimit);
      }
    }
  }

  lemma WindowGrowsBefore<T>(rows: seq<T>, block: seq<T>, offset: nat, limit: nat, exportLimit: nat)
    requires exportLimit <= limit <= NO_LIMIT && |block| <= NO_LIMIT && offset < |rows|
    ensures GrowsRightly(rows, block, offset, limit, exportLimit)
  {
    var to := offset + Capped(exportLimit, |rows| + |block| - offset);
    SliceOfConcat(rows, block, offset, to);
    WindowGrowsInside(rows, block, offset, limit, exportLimit, to);
    hide StateFor;
  }

  lemma WindowGrowsBehind<T>(rows: seq<T>, block: seq<T>, offset: nat, limit: nat, exportLimit: nat)
    requires exportLimit <= limit <= NO_LIMIT && |block| <= NO_LIMIT && |rows| <= offset
    ensures GrowsRightly(rows, block, offset, limit, exportLimit)
  {
    WindowBehind(rows, block, offset, exportLimit);
    ExportedBehind(|rows|, block, offset, limit, exportLimit);
    hide StateFor, Exported, Window, Capped;
  }

  /** Of rows before the offset there is nothing in the window, of the block behind them a slice. */
  lemma WindowBehind<T>(rows: seq<T>, block: seq<T>, offset: nat, exportLimit: nat)
    requires |rows| <= offset
    ensures Window(rows, offset, exportLimit) == []
    ensures var from := Min(offset - |rows|, |block|);
            Window(rows + block, offset, exportLimit) == block[from..from + Capped(exportLimit, |block| - from)]
  {
    var from := Min(offset - |rows|, |block|);
    var n := Capped(exportLimit, |block| - from);
    assert n <= |block| - from && Capped(exportLimit, 0) == 0;
    assert Min(offset, |rows|) == |rows| && Min(offset, |rows + block|) == |rows| + from;
    hide Capped, Min;
    SliceBehind(rows, block, from, from + n);
  }

  lemma SliceBehind<T>(a: seq<T>, b: seq<T>, from: nat, to: nat)
    requires from <= to <= |b|
    ensures (a + b)[|a| + from..|a| + to] == b[from..to]
  {}

  lemma ExportedBehind<T>(seen: nat, block: seq<T>, offset: nat, limit: nat, exportLimit: nat)
    requires exportLimit <= limit <= NO_LIMIT && |block| <= NO_LIMIT && seen <= offset
    ensures var state := StateFor(seen, |block|, offset, limit, exportLimit);
            var from := Min(offset - seen, |block|);
            && (state.Export? ==> state.begin < state.end <= |block|)
            && Exported(state, block) == block[from..from + Capped(exportLimit, |block| - from)]
  {}

  lemma WindowGrowsInside<T>(rows: seq<T>, block: seq<T>, offset: nat, limit: nat, exportLimit: nat, to: nat)
    requires exportLimit <= limit <= NO_LIMIT && |block| <= NO_LIMIT && offset < |rows|
    requires to == offset + Capped(exportLimit, |rows| + |block| - offset)
    ensures var state := StateFor(|rows|, |block|, offset, limit, exportLimit);
            && (state.Export? ==> state.begin < state.end <= |block|)
            && Window(rows, offset, exportLimit) == rows[offset..Min(to, |rows|)]
            && Exported(state, block) == if to <= |rows| then [] else block[..to - |rows|]
  {}

  /** Once the limit is exhausted, no more rows change the window or the count. */
  lemma WindowComplete<T>(rows: seq<T>, more: seq<T>, offset: nat, limit: nat, exportLimit: nat)
    requires 0 < limit < NO_LIMIT && exportLimit <= limit && limit <= Beyond(|rows|, offset)
    ensures Window(rows + more, offset, exportLimit) == Window(rows, offset, exportLimit)
    ensures Capped(limit, Beyond(|rows + more|, offset)) == Capped(limit, Beyond(|rows|, offset))
  {
    var from := Min(offset, |rows| + |more|);
    SliceOfConcat(rows, more, from, from + Capped(exportLimit, |rows| + |more| - from));
  }

  // ---- The whole pipeline -----------------------------------------------------------------------------

  lemma RangeRowsSnoc<T>(ranges: seq<TableWithRange>, r: TableWithRange, blocks: seq<seq<T>>)
    requires RangesFit(ranges, blocks)
    requires r.block < |blocks| && r.begin < r.end <= |blocks[r.block]|
    ensures RangesFit(ranges + [r], blocks)
    ensures RangeRows(ranges + [r], blocks) == RangeRows(ranges, blocks) + blocks[r.block][r.begin..r.end]
  {
    assert (ranges + [r])[..|ranges|] == ranges;
  }

  /** The blocks needed: all of them when the limit is not exhausted; otherwise those through the one
      that exhausts it, and, if that one exports nothing, through the next one that is not empty. */
  ghost predicate PullsOnlyNeeded<T>(blocks: seq<seq<T>>, offset: nat, limit: nat, exportLimit: nat, pulled: nat) {
    && (limit == 0 ==> pulled == 0)
    && (limit > 0 && (limit == NO_LIMIT || Seen(blocks, |blocks|) < offset + limit) ==> pulled == |blocks|)
    && (limit > 0 && limit != NO_LIMIT ==>
          forall k: nat | k < |blocks| && Exhausts(blocks, offset, limit, k) ::
            pulled == if Beyond(Seen(blocks, k), offset) < exportLimit then k + 1 else ThroughNonEmpty(blocks, k + 1))
  }

  ghost predicate Exhausts<T>(blocks: seq<seq<T>>, offset: nat, limit: nat, k: nat)
    requires k < |blocks|
  {
    Seen(blocks, k) < offset + limit <= Seen(blocks, k + 1)
  }

  lemma ExhaustsOnce<T>(blocks: seq<seq<T>>, offset: nat, limit: nat, j: nat, k: nat)
    requires j < |blocks| && k < |blocks|
    requires Exhausts(blocks, offset, limit, j) && Exhausts(blocks, offset, limit, k)
    ensures j == k
  {
    if j < k {
      SeenMonotone(blocks, j + 1, k);
    } else if k < j {
      SeenMonotone(blocks, k + 1, j);
    }
  }

  /** Pulling goes on although the limit is exhausted: block `k` has exhausted it without exporting
      anything, and no row has been seen since. */
  ghost predicate Draining<T>(blocks: seq<seq<T>>, offset: nat, limit: nat, exportLimit: nat, b: nat, k: nat) {
    && k < b <= |blocks| && Exhausts(blocks, offset, limit, k)
    && exportLimit <= Beyond(Seen(blocks, k), offset)
    && ThroughNonEmpty(blocks, k + 1) == ThroughNonEmpty(blocks, b)
  }

  ghost predicate NotDone<T>(blocks: seq<seq<T>>, offset: nat, limit: nat, exportLimit: nat, b: nat) {
    && b <= |blocks|
    && (limit == NO_LIMIT || Seen(blocks, b) < offset + limit
        || exists k :: Draining(blocks, offset, limit, exportLimit, b, k))
  }

  /** How the blocks pulled so far relate to what is needed, after one more block. */
  lemma PullStep<T>(blocks: seq<seq<T>>, offset: nat, limit: nat, exportLimit: nat, b: nat)
    requires b < |blocks| && 0 < limit && exportLimit <= limit && |blocks[b]| <= NO_LIMIT && limit <= NO_LIMIT
    requires NotDone(blocks, offset, limit, exportLimit, b)
    ensures var state := StateFor(Seen(blocks, b), |blocks[b]|, offset, limit, exportLimit);
            if state.AfterLimit? || (state.Export? && state.isLast)
            then limit != NO_LIMIT && limit <= Beyond(Seen(blocks, if state.Export? then b + 1 else b), offset)
              && PullsOnlyNeeded(blocks, offset, limit, exportLimit, b + 1)
            else NotDone(blocks, offset, limit, exportLimit, b + 1)
  {
    SeenNext(blocks, b);
    var state := StateFor(Seen(blocks, b), |blocks[b]|, offset, limit, exportLimit);
    if limit != NO_LIMIT {
      if Seen(blocks, b) < offset + limit <= Seen(blocks, b + 1) {
        assert Exhausts(blocks, offset, limit, b);
        if state.Export? {
          PullsEnd(blocks, offset, limit, exportLimit, b, b + 1);
        } else {
          assert Draining(blocks, offset, limit, exportLimit, b + 1, b);
        }
      } else if offset + limit <= Seen(blocks, b) {
        var k :| Draining(blocks, offset, limit, exportLimit, b, k);
        if state.AfterLimit? {
          PullsEnd(blocks, offset, limit, exportLimit, k, b + 1);
        } else {
          assert Draining(blocks, offset, limit, exportLimit, b + 1, k);
        }
      }
    }
  }

  lemma PullsEnd<T>(blocks: seq<seq<T>>, offset: nat, limit: nat, exportLimit: nat, k: nat, pulled: nat)
    requires 0 < limit != NO_LIMIT && k < |blocks| && Exhausts(blocks, offset, limit, k)
    requires pulled == if Beyond(Seen(blocks, k), offset) < exportLimit then k + 1 else ThroughNonEmpty(blocks, k + 1)
    ensures PullsOnlyNeeded(blocks, offset, limit, exportLimit, pulled)
  {
    SeenMonotone(blocks, k + 1, |blocks|);
    forall j: nat | j < |blocks| && Exhausts(blocks, offset, limit, j)
      ensures j == k
    {
      ExhaustsOnce(blocks, offset, limit, j, k);
    }
  }

  lemma PullsAll<T>(blocks: seq<seq<T>>, offset: nat, limit: nat, exportLimit: nat)
    requires 0 < limit && NotDone(blocks, offset, limit, exportLimit, |blocks|)
    ensures PullsOnlyNeeded(blocks, offset, limit, exportLimit, |blocks|)
  {
    if limit != NO_LIMIT && offset + limit <= Seen(blocks, |blocks|) {
      var k :| Draining(blocks, offset, limit, exportLimit, |blocks|, k);
      PullsEnd(blocks, offset, limit, exportLimit, k, |blocks|);
    } else if limit != NO_LIMIT {
      forall k: nat | k < |blocks|
        ensures !Exhausts(blocks, offset, limit, k)
      {
        SeenMonotone(blocks, k + 1, |blocks|);
      }
    }
  }

  lemma ConcatSplit<T>(blocks: seq<seq<T>>, b: nat)
    requires b <= |blocks|
    ensures Concat(blocks) == Concat(blocks[..b]) + Concat(blocks[b..])
  {
    assert blocks == blocks[..b] + blocks[b..];
    ConcatAppend(blocks[..b], blocks[b..]);
  }

  lemma NothingSelected<T>(blocks: seq<seq<T>>, offset: nat, multiplicator: nat)
    ensures RangesFit([], blocks) && RangeRows([], blocks) == Window(Concat(blocks), offset, 0)
    ensures Capped(0, Beyond(|Concat(blocks)|, offset)) * multiplicator == 0
    ensures PullsOnlyNeeded(blocks, offset, 0, 0, 0) && Traced(blocks, [], |blocks|, offset, 0, 0)
  {}

  /** The ranges to export, the size of the result to report, and the number of blocks pulled. */
  method GetRowIndices<T>(blocks: seq<seq<T>>, clause: LimitOffsetClause, multiplicator: nat)
    returns (ranges: seq<TableWithRange>, resultSize: nat, pulled: nat)
    requires forall b | 0 <= b < |blocks| :: |blocks[b]| <= NO_LIMIT
    ensures var limit, exportLimit := OrNoLimit(clause.limit), Min(OrNoLimit(clause.exportLimit), OrNoLimit(clause.limit));
            && RangesFit(ranges, blocks)
            && RangeRows(ranges, blocks) == Window(Concat(blocks), clause.offset, exportLimit)
            && resultSize == Capped(limit, Beyond(|Concat(blocks)|, clause.offset)) * multiplicator
            && PullsOnlyNeeded(blocks, clause.offset, limit, exportLimit, pulled)
            && Traced(blocks, ranges, |blocks|, clause.offset, limit, exportLimit)
    ensures var rows := Concat(blocks);
            && RangesFit(ranges, blocks) && RangeRows(ranges, blocks) == SelectedRows(rows, clause)
            && resultSize == Limited(clause.limit, |rows| - Min(clause.offset, |rows|)) * multiplicator
  {
    ranges, resultSize, pulled := [], 0, 0;
    var effectiveLimit := OrNoLimit(clause.limit);
    var effectiveExportLimit := Min(OrNoLimit(clause.exportLimit), effectiveLimit);
    WindowIsSelected(Concat(blocks), clause);
    assert clause.limit == Some(0) <==> effectiveLimit == 0;
    hide OrNoLimit, Window, SelectedRows, Limited, Beyond, Capped, PullsOnlyNeeded, Traced, RangesFit, RangeRows;
    if clause.limit == Some(0) {
      NothingSelected(blocks, clause.offset, multiplicator);
      return;
    }
    var s := new TableToState(clause.offset, effectiveLimit, effectiveExportLimit, multiplicator);
    ranges, pulled := PullBlocks(s, blocks, clause.offset, effectiveLimit, effectiveExportLimit, multiplicator);
    resultSize := s.resultSize;
  }

  /** Pulls blocks until the state machine says that no more are needed. */
  method PullBlocks<T>(s: TableToState, blocks: seq<seq<T>>, ghost offset: nat, ghost limit: nat, ghost exportLimit: nat,
                       ghost multiplicator: nat)
    returns (ranges: seq<TableWithRange>, pulled: nat)
    requires forall b | 0 <= b < |blocks| :: |blocks[b]| <= NO_LIMIT
    requires 0 < limit <= NO_LIMIT && exportLimit <= limit
    requires After(s, 0, offset, limit, exportLimit, multiplicator)
    modifies s
    ensures RangesFit(ranges, blocks) && Complete(blocks, ranges, pulled, offset, limit, exportLimit)
    ensures Traced(blocks, ranges, |blocks|, offset, limit, exportLimit)
    ensures s.resultSize == Capped(limit, Beyond(|Concat(blocks)|, offset)) * multiplicator
  {
    Begin(blocks, offset, limit, exportLimit);
    ranges, pulled := [], 0;
    while pulled < |blocks|
      invariant pulled <= |blocks| && RangesFit(ranges, blocks)
      invariant After(s, Seen(blocks, pulled), offset, limit, exportLimit, multiplicator)
      invariant Ongoing(blocks, ranges, pulled, offset, limit, exportLimit)
      invariant Traced(blocks, ranges, pulled, offset, limit, exportLimit)
    {
      var done;
      ranges, done := PullBlock(s, blocks, ranges, pulled, offset, limit, exportLimit, multiplicator);
      pulled := pulled + 1;
      if done {
        TraceMore(blocks, ranges, pulled, offset, limit, exportLimit);
        return;
      }
    }
    AllPulled(s, blocks, ranges, offset, limit, exportLimit, multiplicator);
  }

  method PullBlock<T>(s: TableToState, blocks: seq<seq<T>>, ranges: seq<TableWithRange>, b: nat,
                      ghost offset: nat, ghost limit: nat, ghost exportLimit: nat, ghost multiplicator: nat)
    returns (ranges': seq<TableWithRange>, done: bool)
    requires b < |blocks| && 0 < limit <= NO_LIMIT && exportLimit <= limit && |blocks[b]| <= NO_LIMIT
    requires RangesFit(ranges, blocks) && Ongoing(blocks, ranges, b, offset, limit, exportLimit)
    requires Traced(blocks, ranges, b, offset, limit, exportLimit)
    requires After(s, Seen(blocks, b), offset, limit, exportLimit, multiplicator)
    modifies s
    ensures Traced(blocks, ranges', b + 1, offset, limit, exportLimit)
    ensures RangesFit(ranges', blocks)
    ensures done ==> Complete(blocks, ranges', b + 1, offset, limit, exportLimit)
    ensures done ==> s.resultSize == Capped(limit, Beyond(|Concat(blocks)|, offset)) * multiplicator
    ensures !done ==> Ongoing(blocks, ranges', b + 1, offset, limit, exportLimit)
    ensures !done ==> After(s, Seen(blocks, b + 1), offset, limit, exportLimit, multiplicator)
  {
    hide Ongoing, Complete, Capped, Beyond, StateFor, RangesFit, Traced;
    BlockStep(blocks, ranges, b, offset, limit, exportLimit);
    TraceStep(blocks, ranges, b, offset, limit, exportLimit);
    var state := Step(s, Seen(blocks, b), |blocks[b]|, offset, limit, exportLimit, multiplicator);
    ranges' := RangesAfter(ranges, b, state);
    done := Last(state);
  }

  lemma Begin<T>(blocks: seq<seq<T>>, offset: nat, limit: nat, exportLimit: nat)
    requires limit > 0
    ensures Seen(blocks, 0) == 0 && Ongoing(blocks, [], 0, offset, limit, exportLimit)
  {}

  lemma AllPulled<T>(s: TableToState, blocks: seq<seq<T>>, ranges: seq<TableWithRange>,
                     offset: nat, limit: nat, exportLimit: nat, multiplicator: nat)
    requires 0 < limit && RangesFit(ranges, blocks) && Ongoing(blocks, ranges, |blocks|, offset, limit, exportLimit)
    requires After(s, Seen(blocks, |blocks|), offset, limit, exportLimit, multiplicator)
    ensures Complete(blocks, ranges, |blocks|, offset, limit, exportLimit)
    ensures s.resultSize == Capped(limit, Beyond(|Concat(blocks)|, offset)) * multiplicator
  {
    assert blocks[..|blocks|] == blocks;
    PullsAll(blocks, offset, limit, exportLimit);
  }

  /** After this state, no further block is pulled. */
  predicate Last(state: State) {
    state.AfterLimit? || (state.Export? && state.isLast)
  }

  ghost predicate Ongoing<T>(blocks: seq<seq<T>>, ranges: seq<TableWithRange>, b: nat,
                             offset: nat, limit: nat, exportLimit: nat)
    requires b <= |blocks| && RangesFit(ranges, blocks)
  {
    && RangeRows(ranges, blocks) == Window(Concat(blocks[..b]), offset, exportLimit)
    && NotDone(blocks, offset, limit, exportLimit, b)
  }

  ghost predicate Complete<T>(blocks: seq<seq<T>>, ranges: seq<TableWithRange>, pulled: nat,
                              offset: nat, limit: nat, exportLimit: nat)
    requires RangesFit(ranges, blocks)
  {
    && RangeRows(ranges, blocks) == Window(Concat(blocks), offset, exportLimit)
    && PullsOnlyNeeded(blocks, offset, limit, exportLimit, pulled)
  }

  /** The ranges lie in the first `b` blocks, one block after the other, and each of them is what the state machine
      says for its block. */
  ghost predicate Traced<T>(blocks: seq<seq<T>>, ranges: seq<TableWithRange>, b: nat,
                            offset: nat, limit: nat, exportLimit: nat)
  {
    && RangesFit(ranges, blocks) && (forall i | 0 <= i < |ranges| :: ranges[i].block < b)
    && (forall i, j | 0 <= i < j < |ranges| :: ranges[i].block < ranges[j].block)
    && forall i | 0 <= i < |ranges| :: ExportsRange(blocks, ranges[i], offset, limit, exportLimit)
  }

  ghost predicate ExportsRange<T>(blocks: seq<seq<T>>, r: TableWithRange, offset: nat, limit: nat, exportLimit: nat)
    requires r.block < |blocks|
  {
    var state := StateFor(Seen(blocks, r.block), |blocks[r.block]|, offset, limit, exportLimit);
    state.Export? && state.begin == r.begin && state.end == r.end
  }

  lemma TraceMore<T>(blocks: seq<seq<T>>, ranges: seq<TableWithRange>, b: nat, offset: nat, limit: nat, exportLimit: nat)
    requires b <= |blocks| && Traced(blocks, ranges, b, offset, limit, exportLimit)
    ensures Traced(blocks, ranges, |blocks|, offset, limit, exportLimit)
  {}

  lemma TraceStep<T>(blocks: seq<seq<T>>, ranges: seq<TableWithRange>, b: nat, offset: nat, limit: nat, exportLimit: nat)
    requires b < |blocks| && exportLimit <= limit <= NO_LIMIT && |blocks[b]| <= NO_LIMIT
    requires Traced(blocks, ranges, b, offset, limit, exportLimit)
    ensures var state := StateFor(Seen(blocks, b), |blocks[b]|, offset, limit, exportLimit);
            Traced(blocks, RangesAfter(ranges, b, state), b + 1, offset, limit, exportLimit)
  {
    WindowGrows(Concat(blocks[..b]), blocks[b], offset, limit, exportLimit);
    var state := StateFor(Seen(blocks, b), |blocks[b]|, offset, limit, exportLimit);
    hide StateFor, Window, Concat, Exported;
    if state.Export? {
      TraceSnoc(blocks, ranges, TableWithRange(b, state.begin, state.end), offset, limit, exportLimit);
    }
  }

  lemma TraceSnoc<T>(blocks: seq<seq<T>>, ranges: seq<TableWithRange>, r: TableWithRange, offset: nat, limit: nat,
                     exportLimit: nat)
    requires r.block < |blocks| && r.begin < r.end <= |blocks[r.block]|
    requires Traced(blocks, ranges, r.block, offset, limit, exportLimit) && ExportsRange(blocks, r, offset, limit, exportLimit)
    ensures Traced(blocks, ranges + [r], r.block + 1, offset, limit, exportLimit)
  {
    hide ExportsRange;
  }

  /** The ranges after one more block. */
  function RangesAfter(ranges: seq<TableWithRange>, b: nat, state: State): seq<TableWithRange> {
    match state
    case Export(begin, end, _) => ranges + [TableWithRange(b, begin, end)]
    case _ => ranges
  }

  ghost function SeenAfter<T>(blocks: seq<seq<T>>, b: nat, state: State): nat
    requires b < |blocks|
  {
    Seen(blocks, if state.AfterLimit? then b else b + 1)
  }

  lemma BlockStep<T>(blocks: seq<seq<T>>, ranges: seq<TableWithRange>, b: nat, offset: nat, limit: nat, exportLimit: nat)
    requires b < |blocks| && 0 < limit <= NO_LIMIT && exportLimit <= limit && |blocks[b]| <= NO_LIMIT
    requires RangesFit(ranges, blocks) && Ongoing(blocks, ranges, b, offset, limit, exportLimit)
    ensures Seen(blocks, b + 1) == Seen(blocks, b) + |blocks[b]|
    ensures var state := StateFor(Seen(blocks, b), |blocks[b]|, offset, limit, exportLimit);
            var ranges' := RangesAfter(ranges, b, state);
            && RangesFit(ranges', blocks)
            && (Last(state) ==>
                  && Complete(blocks, ranges', b + 1, offset, limit, exportLimit)
                  && Capped(limit, Beyond(SeenAfter(blocks, b, state), offset)) == Capped(limit, Beyond(|Concat(blocks)|, offset)))
            && (!Last(state) ==> Ongoing(blocks, ranges', b + 1, offset, limit, exportLimit))
  {
    var rows, state := Concat(blocks[..b]), StateFor(Seen(blocks, b), |blocks[b]|, offset, limit, exportLimit);
    SeenNext(blocks, b);
    PullStep(blocks, offset, limit, exportLimit, b);
    WindowGrows(rows, blocks[b], offset, limit, exportLimit);
    if state.Export? {
      RangeRowsSnoc(ranges, TableWithRange(b, state.begin, state.end), blocks);
    }
    if state.AfterLimit? {
      ConcatSplit(blocks, b);
      WindowComplete(rows, Concat(blocks[b..]), offset, limit, exportLimit);
    } else if state.Export? && state.isLast {
      ConcatSplit(blocks, b + 1);
      WindowComplete(Concat(blocks[..b + 1]), Concat(blocks[b + 1..]), offset, limit, exportLimit);
    }
  }
}
