/** Preprocessing of CONSTRUCT templates: everything that does not depend on the row is done once. */
module ConstructTemplatePreprocessor {
  import opened Tables
  import opened ConstructTypes

  function PreprocessTerm(term: GraphTerm, position: nat, columns: VariableToColumnMap): Option<PreprocessedTerm> {
    match term
    case Iri(iri) => Some(PrecomputedConstant(EvaluatedTerm(iri, None)))
    case Literal(literal) =>
      if position == OBJECT then Some(PrecomputedConstant(EvaluatedTerm(literal, None))) else None
    case Variable(name) => if name in columns then Some(PrecomputedVariable(columns[name])) else None
    case BlankNode(isGenerated, nodeLabel) => Some(PrecomputedBlankNode(BlankNodePrefix(isGenerated), "_" + nodeLabel))
  }

  ghost predicate Preprocesses(p: PreprocessedTriple, t: TemplateTriple, columns: VariableToColumnMap) {
    forall k | 0 <= k < 3 :: PreprocessTerm(t[k], k, columns) == Some(p[k])
  }

  /** No row can produce a triple from this template. */
  ghost predicate Dead(t: TemplateTriple, columns: VariableToColumnMap) {
    exists k :: 0 <= k < 3 && PreprocessTerm(t[k], k, columns).None?
  }

  method PreprocessTriple(triple: TemplateTriple, columns: VariableToColumnMap) returns (result: Option<PreprocessedTriple>)
    ensures result.Some? ==> Preprocesses(result.value, triple, columns)
    ensures result.None? ==> Dead(triple, columns)
  {
    var terms: seq<PreprocessedTerm> := [];
    for pos := 0 to 3
      invariant |terms| == pos
      invariant forall k | 0 <= k < pos :: PreprocessTerm(triple[k], k, columns) == Some(terms[k])
    {
      var preprocessed := PreprocessTerm(triple[pos], pos, columns);
      if preprocessed.None? {
        return None;
      }
      terms := terms + [preprocessed.value];
    }
    result := Some(terms);
  }

  /** `ps` are the preprocessed forms of those templates in `ts` that can produce triples. */
  ghost predicate AllPreprocessed(ps: seq<PreprocessedTriple>, ts: seq<TemplateTriple>, columns: VariableToColumnMap) {
    if ts == [] then ps == []
    else
      var n := |ts| - 1;
      if Dead(ts[n], columns) then AllPreprocessed(ps, ts[..n], columns)
      else ps != [] && Preprocesses(ps[|ps| - 1], ts[n], columns) && AllPreprocessed(ps[..|ps| - 1], ts[..n], columns)
  }

  ghost predicate UsesColumn(p: PreprocessedTriple, column: nat) {
    exists k :: 0 <= k < 3 && p[k] == PrecomputedVariable(column)
  }

  /** Exactly the columns used, each of them once. */
  ghost predicate ColumnsUsed(unique: seq<nat>, ps: seq<PreprocessedTriple>) {
    && (forall i, j | 0 <= i < j < |unique| :: unique[i] != unique[j])
    && (forall c :: c in unique <==> exists p :: p in ps && UsesColumn(p, c))
  }

  /** The preprocessed templates and the columns to evaluate for them. */
  method Preprocess(templateTriples: seq<TemplateTriple>, columns: VariableToColumnMap)
    returns (result: PreprocessedConstructTemplate)
    ensures AllPreprocessed(result.preprocessedTriples, templateTriples, columns)
    ensures ColumnsUsed(result.uniqueVariableColumns, result.preprocessedTriples)
  {
    var triples: seq<PreprocessedTriple> := [];
    var unique: seq<nat> := [];
    for i := 0 to |templateTriples|
      invariant AllPreprocessed(triples, templateTriples[..i], columns)
      invariant ColumnsUsed(unique, triples)
    {
      var next := templateTriples[..i + 1];
      assert next[..i] == templateTriples[..i] && next[i] == templateTriples[i];
      var preprocessed := PreprocessTriple(templateTriples[i], columns);
      if preprocessed.None? {
        continue;
      }
      AliveTemplate(preprocessed.value, templateTriples[i], columns);
      unique := CollectColumns(unique, triples, preprocessed.value);
      assert (triples + [preprocessed.value])[..|triples|] == triples;
      triples := triples + [preprocessed.value];
    }
    assert templateTriples[..|templateTriples|] == templateTriples;
    result := PreprocessedConstructTemplate(triples, unique);
  }

  lemma AliveTemplate(p: PreprocessedTriple, t: TemplateTriple, columns: VariableToColumnMap)
    requires Preprocesses(p, t, columns)
    ensures !Dead(t, columns)
  {}

  /** Adds the columns of one more triple that have not been seen before. */
  method CollectColumns(unique: seq<nat>, ghost ps: seq<PreprocessedTriple>, p: PreprocessedTriple) returns (unique': seq<nat>)
    requires ColumnsUsed(unique, ps)
    ensures ColumnsUsed(unique', ps + [p])
  {
    unique' := unique;
    for k := 0 to 3
      invariant forall i, j | 0 <= i < j < |unique'| :: unique'[i] != unique'[j]
      invariant forall c :: c in unique' <==> c in unique || exists j :: 0 <= j < k && p[j] == PrecomputedVariable(c)
    {
      if p[k].PrecomputedVariable? && p[k].columnIndex !in unique' {
        unique' := unique' + [p[k].columnIndex];
      }
    }
    forall c
      ensures c in unique' <==> exists q :: q in ps + [p] && UsesColumn(q, c)
    {
      if c in unique {
        var q :| q in ps && UsesColumn(q, c);
        assert q in ps + [p];
      }
      if UsesColumn(p, c) {
        assert p in ps + [p];
      }
    }
  }
}
