/**
 Updates: the quads to delete and to insert for the selected rows of a result, and their application.
 */
module ExecuteUpdate {
  import opened Tables
  import opened UpdateTemplates
  import opened QuadLists
  import R = RowIndices

  // ---- Specification --------------------------------------------------------------------------------

  /** A set of templates, with what gives them a meaning. */
  datatype Templates = Templates(triples: seq<TripleTemplate>, columns: VariableToColumnMap, vocabulary: Vocabulary)

  ghost predicate FitsRows(columns: VariableToColumnMap, rows: seq<Row>) {
    forall row | row in rows :: FitsRow(columns, row)
  }

  ghost predicate FitsBlocks(columns: VariableToColumnMap, blocks: seq<seq<Row>>) {
    forall b | b in blocks :: FitsRows(columns, b)
  }

  ghost predicate AllKnown(ts: Templates) {
    forall t | t in ts.triples :: HasColumns(t, ts.columns)
  }

  /** The fully bound instances of the templates in the rows. */
  ghost function Instances(ts: Templates, rows: seq<Row>): set<Quad> {
    set t, row | t in ts.triples && row in rows && FitsRow(ts.columns, row)
                 && TemplateQuad(t, ts.columns, ts.vocabulary, row).Some?
              :: TemplateQuad(t, ts.columns, ts.vocabulary, row).value
  }

  /** The rows the query selects. */
  ghost function Selected(blocks: seq<seq<Row>>, clause: R.LimitOffsetClause): seq<Row> {
    R.SelectedRows(Concat(blocks), clause)
  }

  lemma SelectedFit(columns: VariableToColumnMap, blocks: seq<seq<Row>>, clause: R.LimitOffsetClause)
    requires FitsBlocks(columns, blocks)
    ensures FitsRows(columns, Selected(blocks, clause))
  {
    ConcatFits(columns, blocks);
    forall row | row in Selected(blocks, clause)
      ensures row in Concat(blocks)
    {}
  }

  lemma {:induction false} ConcatFits(columns: VariableToColumnMap, blocks: seq<seq<Row>>)
    requires FitsBlocks(columns, blocks)
    ensures FitsRows(columns, Concat(blocks))
  {
    if blocks != [] {
      ConcatFits(columns, blocks[1..]);
      assert blocks[0] in blocks;
    }
  }

  /** No variable of the templates is missing. */
  ghost predicate CanUpdate(insert: Templates, delete: Templates) {
    AllKnown(insert) && AllKnown(delete)
  }

  /** Some template has the quad as its instance in some of the rows. */
  ghost predicate HasInstance(ts: Templates, rows: seq<Row>, q: Quad) {
    exists t, row :: t in ts.triples && row in rows && IsInstance(t, ts.columns, ts.vocabulary, row, q)
  }

  lemma InstancesIff(ts: Templates, rows: seq<Row>, q: Quad)
    requires FitsRows(ts.columns, rows)
    ensures q in Instances(ts, rows) <==> HasInstance(ts, rows, q)
  {
    hide TemplateQuad, IsInstance, FitsRow;
    forall t, row | t in ts.triples && row in rows
      ensures FitsRow(ts.columns, row)
      ensures TemplateQuad(t, ts.columns, ts.vocabulary, row) == Some(q) <==> IsInstance(t, ts.columns, ts.vocabulary, row, q)
    {
      TemplateQuadIff(t, ts.columns, ts.vocabulary, row, q);
    }
  }

  lemma InstancesAppend(ts: Templates, a: seq<Row>, b: seq<Row>)
    ensures Instances(ts, a + b) == Instances(ts, a) + Instances(ts, b)
  {
    forall q | q in Instances(ts, a + b)
      ensures q in Instances(ts, a) || q in Instances(ts, b)
    {
      var t, row :| t in ts.triples && row in a + b && FitsRow(ts.columns, row)
                    && TemplateQuad(t, ts.columns, ts.vocabulary, row) == Some(q);
      assert row in a || row in b;
    }
    assert forall row | row in a || row in b :: row in a + b;
  }

  // ---- One row --------------------------------------------------------------------------------------

  /** The quads that the first `k` templates add for a row. */
  ghost predicate AddedBy(rs: seq<TransformedTriple>, k: nat, row: Row, q: Quad)
    requires k <= |rs| && forall i | 0 <= i < k :: TripleInRow(rs[i], row)
  {
    exists i :: 0 <= i < k && ResolveTriple(row, rs[i]) == Some(q)
  }

  method ComputeAndAddQuadsForResultRow(templates: seq<TransformedTriple>, result: seq<Quad>, row: Row)
    returns (result': seq<Quad>)
    requires forall i | 0 <= i < |templates| :: TripleInRow(templates[i], row)
    ensures forall q :: q in result' <==> q in result || AddedBy(templates, |templates|, row, q)
  {
    result' := result;
    for k := 0 to |templates|
      invariant forall q :: q in result' <==> q in result || AddedBy(templates, k, row, q)
    {
      ghost var before := result';
      var t := templates[k];
      var subject := ResolveVariable(row, t.s);
      var predicate' := ResolveVariable(row, t.p);
      var object' := ResolveVariable(row, t.o);
      var graph := ResolveVariable(row, t.g);
      if subject.Some? && predicate'.Some? && object'.Some? && graph.Some? {
        result' := result' + [Quad(subject.value, predicate'.value, object'.value, graph.value)];
      }
      assert forall q :: q in result' <==> q in before || ResolveTriple(row, templates[k]) == Some(q);
    }
  }

  lemma AddedByIff(ts: Templates, rs: seq<TransformedTriple>, row: Row, q: Quad)
    requires FitsRow(ts.columns, row) && AllFaithful(ts.triples, rs, ts.columns, ts.vocabulary)
    requires forall i | 0 <= i < |rs| :: TripleInRow(rs[i], row)
    ensures AddedBy(rs, |rs|, row, q) <==> q in Instances(ts, [row])
  {
    if AddedBy(rs, |rs|, row, q) {
      var i :| 0 <= i < |rs| && ResolveTriple(row, rs[i]) == Some(q);
      assert Faithful(ts.triples[i], rs[i], ts.columns, ts.vocabulary);
      assert ts.triples[i] in ts.triples && row in [row];
    }
    if q in Instances(ts, [row]) {
      var t :| t in ts.triples && TemplateQuad(t, ts.columns, ts.vocabulary, row) == Some(q);
      var i :| 0 <= i < |ts.triples| && ts.triples[i] == t;
      assert Faithful(ts.triples[i], rs[i], ts.columns, ts.vocabulary);
    }
  }

  lemma FitsTemplates(ts: Templates, rs: seq<TransformedTriple>, row: Row)
    requires AllFaithful(ts.triples, rs, ts.columns, ts.vocabulary) && FitsRow(ts.columns, row)
    ensures forall i | 0 <= i < |rs| :: TripleInRow(rs[i], row)
  {
    forall i | 0 <= i < |rs|
      ensures TripleInRow(rs[i], row)
    {
      assert Faithful(ts.triples[i], rs[i], ts.columns, ts.vocabulary);
    }
  }

  method AddInstances(ghost ts: Templates, templates: seq<TransformedTriple>, qs: seq<Quad>, ghost rows: seq<Row>, row: Row)
    returns (qs': seq<Quad>)
    requires AllFaithful(ts.triples, templates, ts.columns, ts.vocabulary) && FitsRow(ts.columns, row)
    requires QuadSet(qs) == Instances(ts, rows)
    ensures QuadSet(qs') == Instances(ts, rows + [row])
  {
    FitsTemplates(ts, templates, row);
    qs' := ComputeAndAddQuadsForResultRow(templates, qs, row);
    forall q {
      AddedByIff(ts, templates, row, q);
    }
    InstancesAppend(ts, rows, [row]);
  }

  // ---- All rows ---------------------------------------------------------------------------------------

  /** The instances of both kinds, in the order they are found. */
  method Interpolate(ghost insert: Templates, ghost delete: Templates,
                     insertTemplates: seq<TransformedTriple>, deleteTemplates: seq<TransformedTriple>,
                     blocks: seq<seq<Row>>, ranges: seq<R.TableWithRange>)
    returns (toInsert: seq<Quad>, toDelete: seq<Quad>)
    requires AllFaithful(insert.triples, insertTemplates, insert.columns, insert.vocabulary)
    requires AllFaithful(delete.triples, deleteTemplates, delete.columns, delete.vocabulary)
    requires R.RangesFit(ranges, blocks) && FitsBlocks(insert.columns, blocks) && FitsBlocks(delete.columns, blocks)
    ensures QuadSet(toInsert) == Instances(insert, R.RangeRows(ranges, blocks))
    ensures QuadSet(toDelete) == Instances(delete, R.RangeRows(ranges, blocks))
  {
    hide Instances, AllFaithful, FitsRow, FitsRows, QuadSet;
    toInsert, toDelete := [], [];
    ghost var rows: seq<Row> := [];
    NoInstances(insert);
    NoInstances(delete);
    assert R.RangesFit(ranges[..0], blocks) && R.RangeRows(ranges[..0], blocks) == [];
    hide R.RangesFit, R.RangeRows, FitsBlocks;
    for k := 0 to |ranges|
      invariant R.RangesFit(ranges[..k], blocks) && rows == R.RangeRows(ranges[..k], blocks)
      invariant QuadSet(toInsert) == Instances(insert, rows) && QuadSet(toDelete) == Instances(delete, rows)
    {
      var r := ranges[k];
      RangeFits(ranges, blocks, k);
      var block := blocks[r.block];
      BlockFits(insert.columns, blocks, r.block);
      BlockFits(delete.columns, blocks, r.block);
      R.RangeRowsSnoc(ranges[..k], r, blocks);
      toInsert, toDelete := InterpolateRange(insert, delete, insertTemplates, deleteTemplates, block, r.begin, r.end,
                                             toInsert, toDelete, rows);
      rows := rows + block[r.begin..r.end];
      assert ranges[..k + 1] == ranges[..k] + [r];
    }
    assert ranges[..|ranges|] == ranges;
  }

  lemma RangeFits(ranges: seq<R.TableWithRange>, blocks: seq<seq<Row>>, k: nat)
    requires R.RangesFit(ranges, blocks) && k < |ranges|
    ensures ranges[k].block < |blocks| && ranges[k].begin < ranges[k].end <= |blocks[ranges[k].block]|
  {}

  lemma BlockFits(columns: VariableToColumnMap, blocks: seq<seq<Row>>, b: nat)
    requires FitsBlocks(columns, blocks) && b < |blocks|
    ensures FitsRows(columns, blocks[b])
  {}

  /** The rows of one range. */
  method InterpolateRange(ghost insert: Templates, ghost delete: Templates,
                          insertTemplates: seq<TransformedTriple>, deleteTemplates: seq<TransformedTriple>,
                          block: seq<Row>, begin: nat, end: nat, toInsert: seq<Quad>, toDelete: seq<Quad>, ghost before: seq<Row>)
    returns (toInsert': seq<Quad>, toDelete': seq<Quad>)
    requires AllFaithful(insert.triples, insertTemplates, insert.columns, insert.vocabulary)
    requires AllFaithful(delete.triples, deleteTemplates, delete.columns, delete.vocabulary)
    requires begin <= end <= |block| && FitsRows(insert.columns, block) && FitsRows(delete.columns, block)
    requires QuadSet(toInsert) == Instances(insert, before) && QuadSet(toDelete) == Instances(delete, before)
    ensures QuadSet(toInsert') == Instances(insert, before + block[begin..end])
    ensures QuadSet(toDelete') == Instances(delete, before + block[begin..end])
  {
    hide Instances, AllFaithful, FitsRow, QuadSet;
    toInsert', toDelete' := toInsert, toDelete;
    assert before + block[begin..begin] == before;
    for i := begin to end
      invariant QuadSet(toInsert') == Instances(insert, before + block[begin..i])
      invariant QuadSet(toDelete') == Instances(delete, before + block[begin..i])
    {
      var row := block[i];
      assert before + block[begin..i + 1] == before + block[begin..i] + [row];
      assert row in block;
      toInsert' := AddInstances(insert, insertTemplates, toInsert', before + block[begin..i], row);
      toDelete' := AddInstances(delete, deleteTemplates, toDelete', before + block[begin..i], row);
    }
  }

  lemma NoInstances(ts: Templates)
    ensures Instances(ts, []) == QuadSet([]) == {}
  {}

  /** Both lists are strictly sorted and have no quad in common. The insertions are the instances of their
      templates; the deletions are those of theirs, without what is inserted. The counts are those before the
      common quads are dropped. */
  method ComputeGraphUpdateQuads(insert: Templates, delete: Templates, blocks: seq<seq<Row>>, clause: R.LimitOffsetClause)
    returns (r: Option<(seq<Quad>, seq<Quad>)>, numInserted: nat, numDeleted: nat)
    requires forall b | b in blocks :: |b| <= R.NO_LIMIT
    requires FitsBlocks(insert.columns, blocks) && FitsBlocks(delete.columns, blocks)
    ensures r.Some? <==> CanUpdate(insert, delete)
    ensures var inserted, deleted := Instances(insert, Selected(blocks, clause)), Instances(delete, Selected(blocks, clause));
            r.Some? ==>
              && StrictlySorted(r.value.0) && QuadSet(r.value.0) == inserted
              && StrictlySorted(r.value.1) && QuadSet(r.value.1) == deleted - inserted
              && numInserted == |inserted| && numDeleted == |deleted|
  {
    hide Instances, FitsBlocks, QuadSet, StrictlySorted, Sorted, AllFaithful;
    numInserted, numDeleted := 0, 0;
    var insertTemplates := TransformTriplesTemplate(insert.triples, insert.columns, insert.vocabulary);
    if insertTemplates.None? {
      return None, 0, 0;
    }
    var deleteTemplates := TransformTriplesTemplate(delete.triples, delete.columns, delete.vocabulary);
    if deleteTemplates.None? {
      return None, 0, 0;
    }
    var ranges, _, _ := R.GetRowIndices(blocks, clause, 1);
    var toInsert, toDelete :=
      Interpolate(insert, delete, insertTemplates.value, deleteTemplates.value, blocks, ranges);
    toInsert := SortAndRemoveDuplicates(toInsert);
    toDelete := SortAndRemoveDuplicates(toDelete);
    StrictlySortedSize(toInsert);
    StrictlySortedSize(toDelete);
    numInserted, numDeleted := |toInsert|, |toDelete|;
    StrictlySortedIsSorted(toInsert);
    StrictlySortedIsSorted(toDelete);
    var reduced := SetMinus(toDelete, toInsert);
    SetMinusIsSetDifference(toDelete, toInsert, reduced);
    return Some((toInsert, reduced)), numInserted, numDeleted;
  }

  // ---- Applying the update ------------------------------------------------------------------------------

  class DeltaTriples {
    var quads: set<Quad>

    constructor (quads: set<Quad>)
      ensures this.quads == quads
    {
      this.quads := quads;
    }

    method DeleteTriples(qs: seq<Quad>)
      modifies this
      ensures quads == old(quads) - QuadSet(qs)
    {
      quads := quads - set q | q in qs;
    }

    method InsertTriples(qs: seq<Quad>)
      modifies this
      ensures quads == old(quads) + QuadSet(qs)
    {
      quads := quads + set q | q in qs;
    }
  }

  /** Dropping the insertions from the deletions changes nothing. */
  lemma DeleteThenInsert(quads: set<Quad>, deleted: set<Quad>, inserted: set<Quad>)
    ensures quads - (deleted - inserted) + inserted == quads - deleted + inserted
  {}

  /** The update deletes the instances of the one kind and then inserts those of the other; it changes
      nothing when a variable is missing. */
  method Execute(insert: Templates, delete: Templates, blocks: seq<seq<Row>>, clause: R.LimitOffsetClause,
                 deltaTriples: DeltaTriples)
    returns (ok: bool)
    requires forall b | b in blocks :: |b| <= R.NO_LIMIT
    requires FitsBlocks(insert.columns, blocks) && FitsBlocks(delete.columns, blocks)
    modifies deltaTriples
    ensures ok <==> CanUpdate(insert, delete)
    ensures var inserted, deleted := Instances(insert, Selected(blocks, clause)), Instances(delete, Selected(blocks, clause));
            deltaTriples.quads == if ok then old(deltaTriples.quads) - deleted + inserted else old(deltaTriples.quads)
    ensures ok ==> forall q :: q in deltaTriples.quads
                          <==> || HasInstance(insert, Selected(blocks, clause), q)
                               || (q in old(deltaTriples.quads) && !HasInstance(delete, Selected(blocks, clause), q))
  {
    hide Instances, FitsBlocks, FitsRows, HasInstance, Selected, StrictlySorted, CanUpdate;
    var r, _, _ := ComputeGraphUpdateQuads(insert, delete, blocks, clause);
    if r.None? {
      return false;
    }
    var (toInsert, toDelete) := r.value;
    if toDelete != [] {
      deltaTriples.DeleteTriples(toDelete);
    }
    if toInsert != [] {
      deltaTriples.InsertTriples(toInsert);
    }
    DeleteThenInsert(old(deltaTriples.quads), Instances(delete, Selected(blocks, clause)),
                     Instances(insert, Selected(blocks, clause)));
    SelectedFit(insert.columns, blocks, clause);
    SelectedFit(delete.columns, blocks, clause);
    forall q
      ensures q in Instances(insert, Selected(blocks, clause)) <==> HasInstance(insert, Selected(blocks, clause), q)
      ensures q in Instances(delete, Selected(blocks, clause)) <==> HasInstance(delete, Selected(blocks, clause), q)
    {
      InstancesIff(insert, Selected(blocks, clause), q);
      InstancesIff(delete, Selected(blocks, clause), q);
    }
    return true;
  }
}
