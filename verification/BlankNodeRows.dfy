/**
 The row ids of blank nodes for the rows that OFFSET and LIMIT select.
 */
module BlankNodeRows {
  import opened Tables
  import opened BlankNodeLabels
  import G = ConstructTripleGenerator
  import R = RowIndices

  /** The selected ranges, as the views that triples are generated for. */
  ghost function ViewsOf(ranges: seq<R.TableWithRange>, blocks: seq<seq<Row>>): (views: seq<G.TableWithRange>)
    requires R.RangesFit(ranges, blocks)
    ensures |views| == |ranges|
    ensures forall i | 0 <= i < |ranges| ::
              views[i] == G.TableWithRange(blocks[ranges[i].block], ranges[i].begin, ranges[i].end)
  {
    seq(|ranges|, i requires 0 <= i < |ranges| =>
                    G.TableWithRange(blocks[ranges[i].block], ranges[i].begin, ranges[i].end))
  }

  // ---- What the ranges are --------------------------------------------------------------------------------

  /** A range starts where the offset lies in its block, and ends with the block or where the limit is exhausted. */
  lemma RangeBounds(blocks: seq<seq<Row>>, r: R.TableWithRange, offset: nat, limit: nat, exportLimit: nat)
    requires r.block < |blocks| && R.ExportsRange(blocks, r, offset, limit, exportLimit) && exportLimit <= limit <= R.NO_LIMIT
    requires |blocks[r.block]| <= R.NO_LIMIT
    ensures var before, after := R.Seen(blocks, r.block), R.Seen(blocks, r.block + 1);
            && r.begin == R.Beyond(offset, before) && offset < after
            && r.end - r.begin == R.Capped(exportLimit, R.Beyond(after, offset)) - R.Beyond(before, offset)
            && R.Capped(exportLimit, R.Beyond(before, offset)) == R.Beyond(before, offset)
  {
    R.SeenNext(blocks, r.block);
  }

  lemma LaterSeen(blocks: seq<seq<Row>>, ranges: seq<R.TableWithRange>, i: nat, j: nat, offset: nat, limit: nat,
                  exportLimit: nat)
    requires R.Traced(blocks, ranges, |blocks|, offset, limit, exportLimit) && i < j < |ranges|
    ensures R.Seen(blocks, ranges[i].block + 1) <= R.Seen(blocks, ranges[j].block)
  {
    R.SeenMonotone(blocks, ranges[i].block + 1, ranges[j].block);
  }

  ghost predicate BlocksFit(blocks: seq<seq<Row>>) {
    forall b | 0 <= b < |blocks| :: |blocks[b]| <= R.NO_LIMIT
  }

  /** No view is empty, and all but the first start at row 0. */
  lemma ViewsAreOffset(blocks: seq<seq<Row>>, ranges: seq<R.TableWithRange>, offset: nat, limit: nat, exportLimit: nat)
    requires R.Traced(blocks, ranges, |blocks|, offset, limit, exportLimit) && exportLimit <= limit <= R.NO_LIMIT
    requires BlocksFit(blocks)
    ensures OffsetViews(ViewsOf(ranges, blocks))
  {
    hide R.ExportsRange, R.Seen;
    forall k | 1 <= k < |ranges|
      ensures ranges[k].begin == 0
    {
      RangeBounds(blocks, ranges[0], offset, limit, exportLimit);
      RangeBounds(blocks, ranges[k], offset, limit, exportLimit);
      LaterSeen(blocks, ranges, 0, k, offset, limit, exportLimit);
    }
  }

  lemma {:induction false} ViewRowsAreRows(ranges: seq<R.TableWithRange>, blocks: seq<seq<Row>>)
    requires R.RangesFit(ranges, blocks)
    ensures G.AllViewsValid(ViewsOf(ranges, blocks)) && G.ViewRows(ViewsOf(ranges, blocks)) == |R.RangeRows(ranges, blocks)|
    decreases |ranges|
  {
    if ranges != [] {
      var n := |ranges| - 1;
      ViewRowsAreRows(ranges[..n], blocks);
      assert ViewsOf(ranges, blocks)[..n] == ViewsOf(ranges[..n], blocks);
    }
  }

  lemma RowsSnoc(ranges: seq<R.TableWithRange>, blocks: seq<seq<Row>>)
    requires R.RangesFit(ranges, blocks) && ranges != []
    ensures var n := |ranges| - 1;
            |R.RangeRows(ranges, blocks)| == |R.RangeRows(ranges[..n], blocks)| + (ranges[n].end - ranges[n].begin)
    ensures |ranges| == 1 ==> R.RangeRows(ranges[..0], blocks) == []
  {}

  lemma CappedBound(limit: nat, offset: nat, seen: nat, later: nat)
    requires seen <= later
    ensures R.Capped(limit, R.Beyond(seen, offset)) <= R.Beyond(later, offset)
  {}

  /** The number of rows behind the offset before the block of a range, and to the end of it. */
  ghost function RowsBefore(blocks: seq<seq<Row>>, r: R.TableWithRange, offset: nat): nat
    requires r.block < |blocks|
  {
    R.Beyond(R.Seen(blocks, r.block), offset)
  }

  ghost function RowsUpTo(blocks: seq<seq<Row>>, r: R.TableWithRange, offset: nat, exportLimit: nat): nat
    requires r.block < |blocks|
  {
    R.Capped(exportLimit, R.Beyond(R.Seen(blocks, r.block + 1), offset))
  }

  lemma RangeSize(blocks: seq<seq<Row>>, r: R.TableWithRange, offset: nat, limit: nat, exportLimit: nat)
    requires r.block < |blocks| && R.ExportsRange(blocks, r, offset, limit, exportLimit) && exportLimit <= limit <= R.NO_LIMIT
    requires |blocks[r.block]| <= R.NO_LIMIT
    ensures RowsBefore(blocks, r, offset) + (r.end - r.begin) == RowsUpTo(blocks, r, offset, exportLimit)
  {
    hide R.ExportsRange, R.Seen;
    RangeBounds(blocks, r, offset, limit, exportLimit);
  }

  lemma RangesOrdered(blocks: seq<seq<Row>>, ranges: seq<R.TableWithRange>, i: nat, offset: nat, limit: nat, exportLimit: nat)
    requires R.Traced(blocks, ranges, |blocks|, offset, limit, exportLimit) && i + 1 < |ranges|
    ensures RowsUpTo(blocks, ranges[i], offset, exportLimit) <= RowsBefore(blocks, ranges[i + 1], offset)
  {
    hide R.ExportsRange, R.Seen;
    LaterSeen(blocks, ranges, i, i + 1, offset, limit, exportLimit);
    CappedBound(exportLimit, offset, R.Seen(blocks, ranges[i].block + 1), R.Seen(blocks, ranges[i + 1].block));
  }

  /** The first range misses as many rows as lie between the offset and its block. */
  lemma {:induction false} RowsBound(blocks: seq<seq<Row>>, ranges: seq<R.TableWithRange>, offset: nat, limit: nat,
                                     exportLimit: nat)
    requires R.Traced(blocks, ranges, |blocks|, offset, limit, exportLimit) && exportLimit <= limit <= R.NO_LIMIT
    requires BlocksFit(blocks) && ranges != []
    ensures |R.RangeRows(ranges, blocks)| + RowsBefore(blocks, ranges[0], offset)
         <= RowsUpTo(blocks, ranges[|ranges| - 1], offset, exportLimit)
    decreases |ranges|
  {
    var n := |ranges| - 1;
    assert R.Traced(blocks, ranges[..n], |blocks|, offset, limit, exportLimit);
    assert ranges[n].block < |blocks| && R.ExportsRange(blocks, ranges[n], offset, limit, exportLimit);
    assert R.RangesFit(ranges, blocks) && |blocks[ranges[n].block]| <= R.NO_LIMIT;
    hide R.Traced, R.ExportsRange, R.RangeRows, R.RangesFit, RowsBefore, RowsUpTo, BlocksFit;
    RowsSnoc(ranges, blocks);
    RangeSize(blocks, ranges[n], offset, limit, exportLimit);
    if n > 0 {
      RowsBound(blocks, ranges[..n], offset, limit, exportLimit);
      RangesOrdered(blocks, ranges, n - 1, offset, limit, exportLimit);
    }
  }

  // ---- The row ids ----------------------------------------------------------------------------------------

  /** The ranges are those of the selected rows. */
  ghost predicate AreSelected(blocks: seq<seq<Row>>, ranges: seq<R.TableWithRange>, offset: nat, limit: nat, exportLimit: nat) {
    && BlocksFit(blocks) && exportLimit <= limit <= R.NO_LIMIT
    && R.Traced(blocks, ranges, |blocks|, offset, limit, exportLimit)
    && R.RangeRows(ranges, blocks) == R.Window(Concat(blocks), offset, exportLimit)
  }

  ghost predicate HoldsOffset(blocks: seq<seq<Row>>, k: nat, offset: nat) {
    k < |blocks| && R.Seen(blocks, k) <= offset < R.Seen(blocks, k + 1)
  }

  /** The first range is in the block that holds the row at the offset. */
  lemma FirstRange(blocks: seq<seq<Row>>, ranges: seq<R.TableWithRange>, offset: nat, limit: nat, exportLimit: nat, k: nat)
    requires AreSelected(blocks, ranges, offset, limit, exportLimit) && HoldsOffset(blocks, k, offset) && ranges != []
    ensures ranges[0].block == k && ranges[0].begin == offset - R.Seen(blocks, k)
  {
    var b, last := ranges[0].block, ranges[|ranges| - 1].block;
    RowsBound(blocks, ranges, offset, limit, exportLimit);
    RangeBounds(blocks, ranges[0], offset, limit, exportLimit);
    R.SeenMonotone(blocks, last + 1, |blocks|);
    R.SeenMonotone(blocks, k + 1, |blocks|);
    assert blocks[..|blocks|] == blocks;
    assert R.Seen(blocks, b) <= offset;
    if b < k {
      R.SeenMonotone(blocks, b + 1, k);
    } else if k < b {
      R.SeenMonotone(blocks, k + 1, b);
    }
  }

  /** There is one range exactly if the selected rows end in the block in which they begin. */
  lemma OneRangeIff(blocks: seq<seq<Row>>, ranges: seq<R.TableWithRange>, offset: nat, limit: nat, exportLimit: nat, k: nat)
    requires AreSelected(blocks, ranges, offset, limit, exportLimit) && HoldsOffset(blocks, k, offset) && ranges != []
    ensures |ranges| == 1 <==> offset + |R.RangeRows(ranges, blocks)| <= R.Seen(blocks, k + 1)
  {
    FirstRange(blocks, ranges, offset, limit, exportLimit, k);
    RangeBounds(blocks, ranges[0], offset, limit, exportLimit);
    R.SeenNext(blocks, k);
    assert ranges[..1] == [ranges[0]];
    var first := R.RangeRows(ranges[..1], blocks);
    assert R.RangeRows(ranges[..1][..0], blocks) == [];
    if |ranges| > 1 {
      RangeBounds(blocks, ranges[1], offset, limit, exportLimit);
      LaterSeen(blocks, ranges, 0, 1, offset, limit, exportLimit);
      RowsGrow(ranges, blocks, 2);
      assert ranges[..2][..1] == ranges[..1];
    }
  }

  lemma {:induction false} RowsGrow(ranges: seq<R.TableWithRange>, blocks: seq<seq<Row>>, n: nat)
    requires R.RangesFit(ranges, blocks) && n <= |ranges|
    ensures |R.RangeRows(ranges[..n], blocks)| <= |R.RangeRows(ranges, blocks)|
    decreases |ranges|
  {
    if n < |ranges| {
      RowsGrow(ranges[..|ranges| - 1], blocks, n);
      assert ranges[..|ranges| - 1][..n] == ranges[..n];
    } else {
      assert ranges[..n] == ranges;
    }
  }

  /** In terms of the query: the selected rows have ids of their own if and only if the offset lies at the
      beginning of a block, or they end in the block in which they begin, or there are at most as many of them as
      rows of this block have been skipped. */
  lemma SelectedRowIdsDistinctIff(blocks: seq<seq<Row>>, ranges: seq<R.TableWithRange>, offset: nat, limit: nat,
                                  exportLimit: nat, k: nat, rowOffset: nat)
    requires AreSelected(blocks, ranges, offset, limit, exportLimit) && HoldsOffset(blocks, k, offset)
    ensures var n, skipped := |R.Window(Concat(blocks), offset, exportLimit)|, offset - R.Seen(blocks, k);
            && OffsetViews(ViewsOf(ranges, blocks))
            && (RowIdsDistinct(ViewsOf(ranges, blocks), rowOffset)
                <==> skipped == 0 || offset + n <= R.Seen(blocks, k + 1) || n <= skipped)
  {
    hide RowIdsDistinct, R.Window, R.Seen, G.ViewRows, R.RangeRows;
    ViewsAreOffset(blocks, ranges, offset, limit, exportLimit);
    ViewRowsAreRows(ranges, blocks);
    RowIdsDistinctIff(ViewsOf(ranges, blocks), rowOffset);
    if ranges == [] {
      NoRows(blocks);
    } else {
      FirstRange(blocks, ranges, offset, limit, exportLimit, k);
      OneRangeIff(blocks, ranges, offset, limit, exportLimit, k);
    }
  }

  lemma NoRows(blocks: seq<seq<Row>>)
    ensures R.RangesFit([], blocks) && R.RangeRows([], blocks) == []
  {}
}
