/**
 The CONSTRUCT pipeline: templates are preprocessed once, rows are evaluated in batches with a
 shared cache, and the triples come out as if each template had been instantiated row by row.
 */
module ConstructTripleGenerator {
  import opened Tables
  import opened ConstructTypes
  import opened ConstructTemplatePreprocessor
  import opened ConstructBatchEvaluator

  // ---- Instantiating preprocessed templates -----------------------------------------------------------

  predicate Available(term: PreprocessedTerm, batch: BatchEvaluationResult, rowInBatch: nat) {
    term.PrecomputedVariable? ==>
      term.columnIndex in batch.variablesByColumn && rowInBatch < |batch.variablesByColumn[term.columnIndex]|
  }

  function InstantiateTerm(term: PreprocessedTerm, batch: BatchEvaluationResult, rowInBatch: nat, rowTotal: nat)
    : Option<EvaluatedTerm>
    requires Available(term, batch, rowInBatch)
  {
    match term
    case PrecomputedConstant(evaluatedTerm) => Some(evaluatedTerm)
    case PrecomputedVariable(columnIndex) => batch.variablesByColumn[columnIndex][rowInBatch]
    case PrecomputedBlankNode(prefix, suffix) => Some(EvaluatedTerm(prefix + Decimal(rowTotal) + suffix, None))
  }

  /** Every lookup succeeds, and yields the term that the template term stands for. */
  lemma InstantiatesTerm(term: GraphTerm, k: nat, columns: VariableToColumnMap, p: PreprocessedTerm,
                         batch: BatchEvaluationResult, unique: seq<nat>, rows: seq<Row>, r: nat, resolve: Resolver, id: nat)
    requires PreprocessTerm(term, k, columns) == Some(p)
    requires Evaluated(batch, unique, rows, resolve) && r < |rows|
    requires p.PrecomputedVariable? ==> p.columnIndex in unique
    ensures Available(p, batch, r)
    ensures InstantiateTerm(p, batch, r, id) == TermFor(term, k, columns, resolve, rows[r], id)
  {
    match term
    case BlankNode(isGenerated, nodeLabel) =>
      assert BlankNodePrefix(isGenerated) + Decimal(id) + ("_" + nodeLabel)
          == BlankNodePrefix(isGenerated) + Decimal(id) + "_" + nodeLabel;
    case _ =>
  }

  ghost predicate AllAvailable(ps: seq<PreprocessedTriple>, batch: BatchEvaluationResult, r: nat) {
    forall i, k | 0 <= i < |ps| && 0 <= k < 3 :: Available(ps[i][k], batch, r)
  }

  function InstantiateTriple(p: PreprocessedTriple, batch: BatchEvaluationResult, r: nat, id: nat): seq<EvaluatedTriple>
    requires forall k | 0 <= k < 3 :: Available(p[k], batch, r)
  {
    TripleOf(InstantiateTerm(p[0], batch, r, id), InstantiateTerm(p[1], batch, r, id), InstantiateTerm(p[2], batch, r, id))
  }

  ghost function InstantiateRow(ps: seq<PreprocessedTriple>, batch: BatchEvaluationResult, r: nat, id: nat): seq<EvaluatedTriple>
    requires AllAvailable(ps, batch, r)
  {
    if ps == [] then [] else
      InstantiateRow(ps[..|ps| - 1], batch, r, id) + InstantiateTriple(ps[|ps| - 1], batch, r, id)
  }

  /** The columns that the preprocessed triples use have all been evaluated. */
  ghost predicate Covers(unique: seq<nat>, ps: seq<PreprocessedTriple>) {
    forall i, k | 0 <= i < |ps| && 0 <= k < 3 && ps[i][k].PrecomputedVariable? :: ps[i][k].columnIndex in unique
  }

  lemma UsedColumnsCover(unique: seq<nat>, ps: seq<PreprocessedTriple>)
    requires ColumnsUsed(unique, ps)
    ensures Covers(unique, ps)
  {
    forall i, k | 0 <= i < |ps| && 0 <= k < 3 && ps[i][k].PrecomputedVariable?
      ensures ps[i][k].columnIndex in unique
    {
      assert ps[i] in ps && UsesColumn(ps[i], ps[i][k].columnIndex);
    }
  }

  lemma CoveredAvailable(unique: seq<nat>, ps: seq<PreprocessedTriple>, batch: BatchEvaluationResult, rows: seq<Row>,
                         r: nat, resolve: Resolver)
    requires Covers(unique, ps) && Evaluated(batch, unique, rows, resolve) && r < |rows|
    ensures AllAvailable(ps, batch, r)
  {}

  lemma DeadTemplate(t: TemplateTriple, columns: VariableToColumnMap, resolve: Resolver, row: Row, id: nat)
    requires Dead(t, columns)
    ensures TripleFor(t, columns, resolve, row, id) == []
  {
    var k :| 0 <= k < 3 && PreprocessTerm(t[k], k, columns).None?;
    assert TermFor(t[k], k, columns, resolve, row, id).None?;
  }

  /** For one row, the preprocessed templates yield what the templates stand for. */
  lemma {:induction false} InstantiatesRow(ps: seq<PreprocessedTriple>, ts: seq<TemplateTriple>, columns: VariableToColumnMap,
                                           batch: BatchEvaluationResult, unique: seq<nat>, rows: seq<Row>, r: nat,
                                           resolve: Resolver, id: nat)
    requires AllPreprocessed(ps, ts, columns) && Covers(unique, ps)
    requires Evaluated(batch, unique, rows, resolve) && r < |rows|
    ensures AllAvailable(ps, batch, r)
    ensures InstantiateRow(ps, batch, r, id) == TriplesForRow(ts, columns, resolve, rows[r], id)
    decreases |ts|
  {
    CoveredAvailable(unique, ps, batch, rows, r, resolve);
    if ts != [] {
      var n := |ts| - 1;
      if Dead(ts[n], columns) {
        DeadTemplate(ts[n], columns, resolve, rows[r], id);
        InstantiatesRow(ps, ts[..n], columns, batch, unique, rows, r, resolve, id);
      } else {
        var m := |ps| - 1;
        InstantiatesRow(ps[..m], ts[..n], columns, batch, unique, rows, r, resolve, id);
        forall k | 0 <= k < 3
          ensures InstantiateTerm(ps[m][k], batch, r, id) == TermFor(ts[n][k], k, columns, resolve, rows[r], id)
        {
          InstantiatesTerm(ts[n][k], k, columns, ps[m][k], batch, unique, rows, r, resolve, id);
        }
      }
    }
  }

  /** All triples of a batch, row by row and template by template. */
  method InstantiateBatch(tmpl: PreprocessedConstructTemplate, batch: BatchEvaluationResult, batchOffset: nat)
    returns (triples: seq<EvaluatedTriple>)
    requires forall r | 0 <= r < batch.numRows :: AllAvailable(tmpl.preprocessedTriples, batch, r)
    ensures triples == InstantiateRows(tmpl.preprocessedTriples, batch, batch.numRows, batchOffset)
  {
    hide InstantiateTriple;
    triples := [];
    for rowInBatch := 0 to batch.numRows
      invariant triples == InstantiateRows(tmpl.preprocessedTriples, batch, rowInBatch, batchOffset)
    {
      var blankNodeRowId := batchOffset + rowInBatch;
      ghost var before := triples;
      var ps := tmpl.preprocessedTriples;
      for i := 0 to |ps|
        invariant AllAvailable(ps[..i], batch, rowInBatch)
        invariant triples == before + InstantiateRow(ps[..i], batch, rowInBatch, blankNodeRowId)
      {
        assert AllAvailable(ps, batch, rowInBatch);
        assert ps[..i + 1][..i] == ps[..i];
        triples := triples + InstantiateTriple(ps[i], batch, rowInBatch, blankNodeRowId);
      }
      assert ps[..|ps|] == ps;
    }
  }

  ghost function InstantiateRows(ps: seq<PreprocessedTriple>, batch: BatchEvaluationResult, n: nat, batchOffset: nat)
    : seq<EvaluatedTriple>
    requires forall r | 0 <= r < n :: AllAvailable(ps, batch, r)
  {
    if n == 0 then [] else
      InstantiateRows(ps, batch, n - 1, batchOffset) + InstantiateRow(ps, batch, n - 1, batchOffset + n - 1)
  }

  /** Row `r` of the batch is instantiated as row `begin + r` of the table. */
  ghost predicate RowAgrees(ps: seq<PreprocessedTriple>, ts: seq<TemplateTriple>, columns: VariableToColumnMap,
                            batch: BatchEvaluationResult, rows: seq<Row>, begin: nat, resolve: Resolver, base: nat, r: nat)
  {
    && begin + r < |rows| && AllAvailable(ps, batch, r)
    && InstantiateRow(ps, batch, r, base + begin + r) == TriplesForRow(ts, columns, resolve, rows[begin + r], base + begin + r)
  }

  /** A batch that starts at row `begin` yields the triples of its rows, with their own row ids. */
  lemma {:induction false} InstantiatesRows(ps: seq<PreprocessedTriple>, ts: seq<TemplateTriple>, columns: VariableToColumnMap,
                                            batch: BatchEvaluationResult, rows: seq<Row>, begin: nat, n: nat,
                                            resolve: Resolver, base: nat)
    requires begin + n <= |rows|
    requires forall r | 0 <= r < n :: RowAgrees(ps, ts, columns, batch, rows, begin, resolve, base, r)
    ensures forall r | 0 <= r < n :: AllAvailable(ps, batch, r)
    ensures InstantiateRows(ps, batch, n, base + begin) == TriplesForRows(ts, columns, resolve, rows, begin, begin + n, base)
    decreases n
  {
    hide AllAvailable;
    if n > 0 {
      InstantiatesRows(ps, ts, columns, batch, rows, begin, n - 1, resolve, base);
      assert RowAgrees(ps, ts, columns, batch, rows, begin, resolve, base, n - 1);
    }
  }

  lemma BatchAgrees(ps: seq<PreprocessedTriple>, ts: seq<TemplateTriple>, columns: VariableToColumnMap,
                    batch: BatchEvaluationResult, unique: seq<nat>, rows: seq<Row>, begin: nat, end: nat,
                    resolve: Resolver, base: nat)
    requires AllPreprocessed(ps, ts, columns) && Covers(unique, ps)
    requires begin <= end <= |rows| && Evaluated(batch, unique, rows[begin..end], resolve)
    ensures forall r | 0 <= r < end - begin :: RowAgrees(ps, ts, columns, batch, rows, begin, resolve, base, r)
  {
    forall r | 0 <= r < end - begin
      ensures RowAgrees(ps, ts, columns, batch, rows, begin, resolve, base, r)
    {
      InstantiatesRow(ps, ts, columns, batch, unique, rows[begin..end], r, resolve, base + begin + r);
    }
  }

  // ---- Batches and tables -------------------------------------------------------------------------------

  /** Rows `begin .. end - 1` of a table. */
  datatype TableWithRange = TableWithRange(rows: seq<Row>, begin: nat, end: nat) {
    ghost predicate Valid() {
      begin <= end <= |rows|
    }
  }

  /** What preprocessing has established about a template. */
  ghost predicate Prepared(tmpl: PreprocessedConstructTemplate, ts: seq<TemplateTriple>, columns: VariableToColumnMap) {
    && AllPreprocessed(tmpl.preprocessedTriples, ts, columns)
    && ColumnsUsed(tmpl.uniqueVariableColumns, tmpl.preprocessedTriples)
  }

  /** The rows of the view. */
  ghost predicate ResolvesView(resolve: Resolver, known: Resolver, rows: seq<Row>, begin: nat, end: nat, columns: seq<nat>) {
    begin <= end <= |rows| && ResolvesAs(resolve, known, rows[begin..end], columns)
  }

  lemma ResolvesPart(resolve: Resolver, known: Resolver, rows: seq<Row>, begin: nat, end: nat, columns: seq<nat>,
                     batchBegin: nat, batchEnd: nat)
    requires ResolvesView(resolve, known, rows, begin, end, columns) && begin <= batchBegin <= batchEnd <= end
    ensures ResolvesView(resolve, known, rows, batchBegin, batchEnd, columns)
  {
    forall r: nat, c: nat | r < batchEnd - batchBegin && c in columns
      ensures SameTerm(resolve, known, rows[batchBegin..batchEnd][r], c)
    {
      assert SameTerm(resolve, known, rows[begin..end][batchBegin - begin + r], c);
    }
  }

  method ComputeBatch(rows: seq<Row>, batchBegin: nat, batchEnd: nat, tmpl: PreprocessedConstructTemplate,
                      resolve: Resolver, cache: IdCache, tableRowOffset: nat,
                      ghost ts: seq<TemplateTriple>, ghost columns: VariableToColumnMap, ghost known: Resolver)
    returns (triples: seq<EvaluatedTriple>)
    requires batchBegin < batchEnd <= |rows| && Prepared(tmpl, ts, columns)
    requires cache.Correct(known) && ResolvesView(resolve, known, rows, batchBegin, batchEnd, tmpl.uniqueVariableColumns)
    modifies cache
    ensures cache.Correct(known)
    ensures triples == TriplesForRows(ts, columns, resolve, rows, batchBegin, batchEnd, tableRowOffset)
  {
    hide ResolvesAs, AllPreprocessed, Covers, RowAgrees, AllAvailable, TriplesForRows, InstantiateRows;
    var batch := EvaluateBatch(tmpl.uniqueVariableColumns, rows[batchBegin..batchEnd], cache, resolve, known);
    UsedColumnsCover(tmpl.uniqueVariableColumns, tmpl.preprocessedTriples);
    BatchAgrees(tmpl.preprocessedTriples, ts, columns, batch, tmpl.uniqueVariableColumns, rows,
                batchBegin, batchEnd, resolve, tableRowOffset);
    InstantiatesRows(tmpl.preprocessedTriples, ts, columns, batch, rows, batchBegin, batchEnd - batchBegin,
                     resolve, tableRowOffset);
    triples := InstantiateBatch(tmpl, batch, tableRowOffset + batchBegin);
  }

  method ProcessTable(table: TableWithRange, tmpl: PreprocessedConstructTemplate, resolve: Resolver, cache: IdCache,
                      tableRowOffset: nat, batchSize: nat, ghost ts: seq<TemplateTriple>, ghost columns: VariableToColumnMap,
                      ghost known: Resolver)
    returns (triples: seq<EvaluatedTriple>)
    requires table.Valid() && batchSize > 0 && Prepared(tmpl, ts, columns)
    requires cache.Correct(known)
    requires ResolvesView(resolve, known, table.rows, table.begin, table.end, tmpl.uniqueVariableColumns)
    modifies cache
    ensures cache.Correct(known)
    ensures triples == TriplesForRows(ts, columns, resolve, table.rows, table.begin, table.end, tableRowOffset)
  {
    hide ResolvesView, Prepared;
    triples := [];
    var chunkBegin := table.begin;
    while chunkBegin < table.end
      invariant table.begin <= chunkBegin <= table.end && cache.Correct(known)
      invariant triples == TriplesForRows(ts, columns, resolve, table.rows, table.begin, chunkBegin, tableRowOffset)
    {
      var chunkEnd := Min(chunkBegin + batchSize, table.end);
      ResolvesPart(resolve, known, table.rows, table.begin, table.end, tmpl.uniqueVariableColumns, chunkBegin, chunkEnd);
      var chunk := ComputeBatch(table.rows, chunkBegin, chunkEnd, tmpl, resolve, cache, tableRowOffset, ts, columns, known);
      RowsSplit(ts, columns, resolve, table.rows, table.begin, chunkBegin, chunkEnd, tableRowOffset);
      triples := triples + chunk;
      chunkBegin := chunkEnd;
    }
  }

  // ---- Terms known across tables --------------------------------------------------------------------------

  ghost predicate UsesAt(t: TemplateTriple, k: nat, columns: VariableToColumnMap, c: nat)
    requires k < 3
  {
    t[k].Variable? && t[k].name in columns && columns[t[k].name] == c
  }

  /** The column holds the values of a variable in a template triple that can produce triples. */
  ghost predicate IsTemplateColumn(ts: seq<TemplateTriple>, columns: VariableToColumnMap, c: nat) {
    exists t: TemplateTriple, k: nat :: t in ts && !Dead(t, columns) && k < 3 && UsesAt(t, k, columns, c)
  }

  lemma {:induction false} UsedIsTemplateColumn(ps: seq<PreprocessedTriple>, ts: seq<TemplateTriple>,
                                                columns: VariableToColumnMap, p: PreprocessedTriple, c: nat)
    requires AllPreprocessed(ps, ts, columns) && p in ps && UsesColumn(p, c)
    ensures IsTemplateColumn(ts, columns, c)
    decreases |ts|
  {
    var n := |ts| - 1;
    if Preprocesses(p, ts[n], columns) {
      var k: nat :| k < 3 && p[k] == PrecomputedVariable(c);
      AliveTemplate(p, ts[n], columns);
      assert PreprocessTerm(ts[n][k], k, columns) == Some(p[k]) && UsesAt(ts[n], k, columns, c);
    } else {
      UsedIsTemplateColumn(if Dead(ts[n], columns) then ps else ps[..|ps| - 1], ts[..n], columns, p, c);
      var t: TemplateTriple, k: nat :| t in ts[..n] && !Dead(t, columns) && k < 3 && UsesAt(t, k, columns, c);
      assert t in ts;
    }
  }

  /** The id is in the view of the table, in a column that the template uses. */
  ghost predicate UsesId(ts: seq<TemplateTriple>, columns: VariableToColumnMap, table: TableWithRange, id: Id) {
    exists r: nat, c: nat ::
      r < |table.rows| && IsViewed(table, r) && IsTemplateColumn(ts, columns, c) && IdAt(table.rows[r], c) == id
  }

  predicate IsViewed(table: TableWithRange, r: nat) {
    table.begin <= r < table.end
  }

  /** Tables of which the template uses the same id resolve it to the same term. */
  ghost predicate Consistent(ts: seq<TemplateTriple>, columns: VariableToColumnMap, tables: seq<TableWithRange>,
                             resolvers: seq<Resolver>)
  {
    && |resolvers| == |tables|
    && forall j, k, id | 0 <= j < k < |tables| && UsesId(ts, columns, tables[j], id) && UsesId(ts, columns, tables[k], id) ::
         resolvers[j](id) == resolvers[k](id)
  }

  /** What is known about the ids that the template uses. */
  ghost function Known(ts: seq<TemplateTriple>, columns: VariableToColumnMap, tables: seq<TableWithRange>,
                       resolvers: seq<Resolver>): Resolver
    requires |resolvers| == |tables|
  {
    (id: Id) => KnownTerm(ts, columns, tables, resolvers, id)
  }

  ghost function KnownTerm(ts: seq<TemplateTriple>, columns: VariableToColumnMap, tables: seq<TableWithRange>,
                           resolvers: seq<Resolver>, id: Id): Option<EvaluatedTerm>
    requires |resolvers| == |tables|
  {
    if exists k: nat :: k < |tables| && UsesId(ts, columns, tables[k], id) then
      var k: nat :| k < |tables| && UsesId(ts, columns, tables[k], id);
      resolvers[k](id)
    else None
  }

  lemma KnownIsCommon(ts: seq<TemplateTriple>, columns: VariableToColumnMap, tables: seq<TableWithRange>,
                      resolvers: seq<Resolver>, k: nat, tmpl: PreprocessedConstructTemplate)
    requires Consistent(ts, columns, tables, resolvers) && k < |tables| && tables[k].Valid() && Prepared(tmpl, ts, columns)
    ensures ResolvesView(resolvers[k], Known(ts, columns, tables, resolvers), tables[k].rows, tables[k].begin, tables[k].end,
                         tmpl.uniqueVariableColumns)
  {
    hide AllPreprocessed, UsesColumn, IsTemplateColumn;
    var rows, begin := tables[k].rows, tables[k].begin;
    forall r: nat, c: nat | r < tables[k].end - begin && c in tmpl.uniqueVariableColumns
      ensures SameTerm(resolvers[k], Known(ts, columns, tables, resolvers), rows[begin..tables[k].end][r], c)
    {
      var p :| p in tmpl.preprocessedTriples && UsesColumn(p, c);
      UsedIsTemplateColumn(tmpl.preprocessedTriples, ts, columns, p, c);
      assert IsViewed(tables[k], begin + r);
      assert UsesId(ts, columns, tables[k], IdAt(rows[begin + r], c));
    }
  }

  ghost predicate AllViewsValid(tables: seq<TableWithRange>) {
    forall k | 0 <= k < |tables| :: tables[k].Valid()
  }

  /** The number of rows in the views of the tables. */
  ghost function ViewRows(tables: seq<TableWithRange>): nat
    requires AllViewsValid(tables)
  {
    if tables == [] then 0 else
      var n := |tables| - 1;
      assert tables[n].Valid();
      ViewRows(tables[..n]) + (tables[n].end - tables[n].begin)
  }

  /** Row-by-row instantiation, with the terms of each table: the row id is the offset, plus the rows in the
      views of earlier tables, plus the index of the row in its own table. */
  ghost function NaiveTriples(ts: seq<TemplateTriple>, columns: VariableToColumnMap, resolvers: seq<Resolver>,
                              tables: seq<TableWithRange>, rowOffset: nat): seq<EvaluatedTriple>
    requires AllViewsValid(tables) && |resolvers| == |tables|
  {
    if tables == [] then [] else
      var n := |tables| - 1;
      assert tables[n].Valid();
      NaiveTriples(ts, columns, resolvers[..n], tables[..n], rowOffset)
      + TriplesForRows(ts, columns, resolvers[n], tables[n].rows, tables[n].begin, tables[n].end,
                       rowOffset + ViewRows(tables[..n]))
  }

  ghost predicate ComesFromView(e: EvaluatedTriple, ts: seq<TemplateTriple>, columns: VariableToColumnMap, resolve: Resolver,
                                table: TableWithRange, base: nat)
  {
    exists r: nat :: table.begin <= r < table.end && ComesFromRow(e, ts, columns, resolve, table.rows, r, base)
  }

  /** The triple is that of some template for some row in the view of table `k`. */
  ghost predicate ComesFromTable(e: EvaluatedTriple, ts: seq<TemplateTriple>, columns: VariableToColumnMap,
                                 resolvers: seq<Resolver>, tables: seq<TableWithRange>, rowOffset: nat, k: nat)
    requires AllViewsValid(tables) && |resolvers| == |tables|
  {
    k < |tables| && ComesFromView(e, ts, columns, resolvers[k], tables[k], rowOffset + ViewRows(tables[..k]))
  }

  /** The triples are exactly those whose subject, predicate and object stand for those of a template in a row of
      a view. */
  lemma {:induction false} NaiveTriplesIff(ts: seq<TemplateTriple>, columns: VariableToColumnMap, resolvers: seq<Resolver>,
                                           tables: seq<TableWithRange>, rowOffset: nat, e: EvaluatedTriple)
    requires AllViewsValid(tables) && |resolvers| == |tables|
    ensures e in NaiveTriples(ts, columns, resolvers, tables, rowOffset)
       <==> exists k: nat :: ComesFromTable(e, ts, columns, resolvers, tables, rowOffset, k)
    decreases |tables|
  {
    hide ComesFromRow, TriplesForRows;
    if tables != [] {
      var n := |tables| - 1;
      assert tables[n].Valid();
      var base := rowOffset + ViewRows(tables[..n]);
      NaiveTriplesIff(ts, columns, resolvers[..n], tables[..n], rowOffset, e);
      TriplesForRowsIff(ts, columns, resolvers[n], tables[n].rows, tables[n].begin, tables[n].end, base, e);
      assert ComesFromTable(e, ts, columns, resolvers, tables, rowOffset, n)
        <==> e in TriplesForRows(ts, columns, resolvers[n], tables[n].rows, tables[n].begin, tables[n].end, base);
      forall k: nat | k < n
        ensures ComesFromTable(e, ts, columns, resolvers, tables, rowOffset, k)
           <==> ComesFromTable(e, ts, columns, resolvers[..n], tables[..n], rowOffset, k)
      {
        FromEarlierTable(e, ts, columns, resolvers, tables, rowOffset, n, k);
      }
    }
  }

  lemma FromEarlierTable(e: EvaluatedTriple, ts: seq<TemplateTriple>, columns: VariableToColumnMap, resolvers: seq<Resolver>,
                         tables: seq<TableWithRange>, rowOffset: nat, n: nat, k: nat)
    requires AllViewsValid(tables) && |resolvers| == |tables| && k < n <= |tables|
    ensures ComesFromTable(e, ts, columns, resolvers, tables, rowOffset, k)
       <==> ComesFromTable(e, ts, columns, resolvers[..n], tables[..n], rowOffset, k)
  {
    hide ComesFromView;
    assert tables[..n][..k] == tables[..k];
  }

  /** The first `k` tables have been processed. */
  ghost predicate Processed(ts: seq<TemplateTriple>, columns: VariableToColumnMap, resolvers: seq<Resolver>,
                            tables: seq<TableWithRange>, rowOffset: nat, k: nat,
                            accumulated: nat, triples: seq<EvaluatedTriple>)
  {
    && k <= |tables| == |resolvers| && AllViewsValid(tables)
    && accumulated == rowOffset + ViewRows(tables[..k])
    && triples == NaiveTriples(ts, columns, resolvers[..k], tables[..k], rowOffset)
  }

  lemma NextTable(ts: seq<TemplateTriple>, columns: VariableToColumnMap, resolvers: seq<Resolver>, tables: seq<TableWithRange>,
                  rowOffset: nat, k: nat, accumulated: nat, triples: seq<EvaluatedTriple>, more: seq<EvaluatedTriple>)
    requires Processed(ts, columns, resolvers, tables, rowOffset, k, accumulated, triples) && k < |tables| && tables[k].Valid()
    requires more == TriplesForRows(ts, columns, resolvers[k], tables[k].rows, tables[k].begin, tables[k].end, accumulated)
    ensures Processed(ts, columns, resolvers, tables, rowOffset, k + 1,
                      accumulated + (tables[k].end - tables[k].begin), triples + more)
  {
    assert tables[..k + 1][..k] == tables[..k] && resolvers[..k + 1][..k] == resolvers[..k];
  }

  lemma AllProcessed(ts: seq<TemplateTriple>, columns: VariableToColumnMap, resolvers: seq<Resolver>,
                     tables: seq<TableWithRange>, rowOffset: nat, accumulated: nat, triples: seq<EvaluatedTriple>)
    requires Processed(ts, columns, resolvers, tables, rowOffset, |tables|, accumulated, triples)
    ensures triples == NaiveTriples(ts, columns, resolvers, tables, rowOffset)
  {
    assert tables[..|tables|] == tables && resolvers[..|tables|] == resolvers;
  }

  /** Each table has a resolver of its own, for the ids of its own vocabulary. As long as no two tables resolve an id
      differently that the template uses from the views of both, the pipeline yields the triples of the row-by-row
      instantiation, in the same order, for every batch size and whatever the cache evicts. */
  method EvaluateTables(templateTriples: seq<TemplateTriple>, variableColumns: VariableToColumnMap, resolvers: seq<Resolver>,
                        tables: seq<TableWithRange>, rowOffset: nat, batchSize: nat)
    returns (triples: seq<EvaluatedTriple>)
    requires AllViewsValid(tables) && batchSize > 0 && Consistent(templateTriples, variableColumns, tables, resolvers)
    ensures triples == NaiveTriples(templateTriples, variableColumns, resolvers, tables, rowOffset)
    ensures forall e :: e in triples
                   <==> exists k: nat :: ComesFromTable(e, templateTriples, variableColumns, resolvers, tables, rowOffset, k)
  {
    var tmpl := Preprocess(templateTriples, variableColumns);
    assert Prepared(tmpl, templateTriples, variableColumns);
    var cache := new IdCache();
    ghost var known := Known(templateTriples, variableColumns, tables, resolvers);
    var accumulatedRowOffset: nat := rowOffset;
    triples := [];
    assert Processed(templateTriples, variableColumns, resolvers, tables, rowOffset, 0, accumulatedRowOffset, triples);
    hide Prepared, TriplesForRows, Processed, ResolvesView, Known, Consistent, ComesFromTable;
    for k := 0 to |tables|
      invariant fresh(cache) && cache.Correct(known)
      invariant Processed(templateTriples, variableColumns, resolvers, tables, rowOffset, k, accumulatedRowOffset, triples)
    {
      var table := tables[k];
      assert table.Valid();
      var tableRowOffset := accumulatedRowOffset;
      accumulatedRowOffset := accumulatedRowOffset + (table.end - table.begin);
      KnownIsCommon(templateTriples, variableColumns, tables, resolvers, k, tmpl);
      var more := ProcessTable(table, tmpl, resolvers[k], cache, tableRowOffset, batchSize, templateTriples, variableColumns,
                               known);
      NextTable(templateTriples, variableColumns, resolvers, tables, rowOffset, k, tableRowOffset, triples, more);
      triples := triples + more;
    }
    AllProcessed(templateTriples, variableColumns, resolvers, tables, rowOffset, accumulatedRowOffset, triples);
    forall e {
      NaiveTriplesIff(templateTriples, variableColumns, resolvers, tables, rowOffset, e);
    }
  }
}
