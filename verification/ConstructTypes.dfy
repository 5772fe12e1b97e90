/**
 CONSTRUCT templates, their preprocessed form, and the meaning of a template for one result row.
 */
module ConstructTypes {
  import opened Tables

  datatype GraphTerm =
    | Iri(iri: string)
    | Literal(literal: string)
    | Variable(name: string)
    | BlankNode(isGenerated: bool, nodeLabel: string)

  /** Subject, predicate and object. */
  type TemplateTriple = t: seq<GraphTerm> | |t| == 3 witness [Iri(""), Iri(""), Iri("")]

  /** A resolved term: its text, and the datatype if it is an encoded literal. */
  datatype EvaluatedTerm = EvaluatedTerm(rdfTermString: string, rdfTermDataType: Option<string>)

  datatype EvaluatedTriple = EvaluatedTriple(subjectTerm: EvaluatedTerm, predicateTerm: EvaluatedTerm, objectTerm: EvaluatedTerm)

  datatype PreprocessedTerm =
    | PrecomputedConstant(evaluatedTerm: EvaluatedTerm)
    | PrecomputedVariable(columnIndex: nat)
    | PrecomputedBlankNode(prefix: string, suffix: string)

  type PreprocessedTriple =
    t: seq<PreprocessedTerm> | |t| == 3 witness [PrecomputedVariable(0), PrecomputedVariable(0), PrecomputedVariable(0)]

  datatype PreprocessedConstructTemplate =
    PreprocessedConstructTemplate(preprocessedTriples: seq<PreprocessedTriple>, uniqueVariableColumns: seq<nat>)

  /** The columns of the result that hold the values of the variables. */
  type VariableToColumnMap = map<string, nat>

  /** How ids are resolved to terms. Undefined ids, among others, have no term. */
  type Resolver = Id -> Option<EvaluatedTerm>

  const OBJECT: nat := 2

  function Digit(d: nat): char
    requires d < 10
  {
    "0123456789"[d]
  }

  function Decimal(n: nat): (s: string)
    ensures s != []
  {
    if n < 10 then [Digit(n)] else Decimal(n / 10) + [Digit(n % 10)]
  }

  function BlankNodePrefix(isGenerated: bool): string {
    if isGenerated then "_:g" else "_:u"
  }

  // ---- The meaning of a template ------------------------------------------------------------------

  /** The ids of one row, as they matter to a template: columns that do not exist are undefined. */
  function IdAt(row: Row, column: nat): Id {
    if column < |row| then row[column] else UNDEF
  }

  /** The term that a template term stands for in a row. Literals are allowed only as objects, a
      variable stands for its value, and each row has blank nodes of its own. */
  function TermFor(term: GraphTerm, position: nat, columns: VariableToColumnMap, resolve: Resolver, row: Row, rowId: nat)
    : Option<EvaluatedTerm>
  {
    match term
    case Iri(iri) => Some(EvaluatedTerm(iri, None))
    case Literal(literal) => if position == OBJECT then Some(EvaluatedTerm(literal, None)) else None
    case Variable(name) => if name in columns then resolve(IdAt(row, columns[name])) else None
    case BlankNode(isGenerated, nodeLabel) =>
      Some(EvaluatedTerm(BlankNodePrefix(isGenerated) + Decimal(rowId) + "_" + nodeLabel, None))
  }

  function TripleOf(s: Option<EvaluatedTerm>, p: Option<EvaluatedTerm>, o: Option<EvaluatedTerm>): seq<EvaluatedTriple> {
    if s.Some? && p.Some? && o.Some? then [EvaluatedTriple(s.value, p.value, o.value)] else []
  }

  /** The triple for one template and one row; none if one of its terms is missing. */
  function TripleFor(t: TemplateTriple, columns: VariableToColumnMap, resolve: Resolver, row: Row, rowId: nat)
    : seq<EvaluatedTriple>
  {
    TripleOf(TermFor(t[0], 0, columns, resolve, row, rowId),
             TermFor(t[1], 1, columns, resolve, row, rowId),
             TermFor(t[2], 2, columns, resolve, row, rowId))
  }

  /** The triples for all templates and one row. */
  function TriplesForRow(ts: seq<TemplateTriple>, columns: VariableToColumnMap, resolve: Resolver, row: Row, rowId: nat)
    : seq<EvaluatedTriple>
  {
    if ts == [] then [] else
      TriplesForRow(ts[..|ts| - 1], columns, resolve, row, rowId)
      + TripleFor(ts[|ts| - 1], columns, resolve, row, rowId)
  }

  /** Row after row; row `r` of the table has the id `base + r`. */
  function TriplesForRows(ts: seq<TemplateTriple>, columns: VariableToColumnMap, resolve: Resolver,
                          rows: seq<Row>, begin: nat, end: nat, base: nat)
    : seq<EvaluatedTriple>
    requires begin <= end <= |rows|
  {
    if begin == end then [] else
      TriplesForRows(ts, columns, resolve, rows, begin, end - 1, base)
      + TriplesForRow(ts, columns, resolve, rows[end - 1], base + end - 1)
  }

  lemma {:induction false} RowsSplit(ts: seq<TemplateTriple>, columns: VariableToColumnMap, resolve: Resolver,
                                     rows: seq<Row>, begin: nat, mid: nat, end: nat, base: nat)
    requires begin <= mid <= end <= |rows|
    ensures TriplesForRows(ts, columns, resolve, rows, begin, end, base)
         == TriplesForRows(ts, columns, resolve, rows, begin, mid, base)
            + TriplesForRows(ts, columns, resolve, rows, mid, end, base)
    decreases end
  {
    if mid < end {
      RowsSplit(ts, columns, resolve, rows, begin, mid, end - 1, base);
    }
  }

  // ---- The triples of a template, term by term ------------------------------------------------------

  /** The number that a sequence of digits stands for. */
  ghost function NumeralValue(s: string): int {
    if s == [] then 0 else 10 * NumeralValue(s[..|s| - 1]) + (s[|s| - 1] as int - '0' as int)
  }

  /** Decimal digits without leading zeros. */
  ghost predicate IsNumeral(s: string, n: nat) {
    && s != [] && (forall i | 0 <= i < |s| :: '0' <= s[i] <= '9') && (|s| > 1 ==> s[0] != '0')
    && NumeralValue(s) == n
  }

  lemma OneDigit(d: nat)
    requires d < 10
    ensures IsNumeral([Digit(d)], d)
  {
    assert [Digit(d)][..0] == [];
  }

  lemma OneMoreDigit(s: string, m: nat, d: nat)
    requires IsNumeral(s, m) && m > 0 && d < 10
    ensures IsNumeral(s + [Digit(d)], 10 * m + d)
  {
    var t := s + [Digit(d)];
    assert t[..|t| - 1] == s && t[0] == s[0];
    if |s| == 1 {
      assert NumeralValue(s[..0]) == 0;
    }
  }

  lemma {:induction false} DecimalIsNumeral(n: nat)
    ensures IsNumeral(Decimal(n), n)
  {
    hide IsNumeral;
    if n < 10 {
      OneDigit(n);
    } else {
      DecimalIsNumeral(n / 10);
      OneMoreDigit(Decimal(n / 10), n / 10, n % 10);
    }
  }

  lemma LastOfNumeral(s: string, n: nat)
    requires IsNumeral(s, n)
    ensures s[|s| - 1] == Digit(n % 10)
    ensures if |s| == 1 then n < 10 else n >= 10 && IsNumeral(s[..|s| - 1], n / 10)
  {
    var k := |s| - 1;
    var d := s[k] as int - '0' as int;
    assert 0 <= d < 10 && Digit(d) == s[k];
    if k == 0 {
      assert NumeralValue(s[..0]) == 0;
    } else {
      FirstDigit(s[..k]);
      assert s[..k][0] == s[0];
      assert n == 10 * NumeralValue(s[..k]) + d;
    }
  }

  /** Every number has one numeral. */
  lemma {:induction false} NumeralUnique(s: string, n: nat)
    requires IsNumeral(s, n)
    ensures s == Decimal(n)
    decreases |s|
  {
    LastOfNumeral(s, n);
    var k := |s| - 1;
    assert s == s[..k] + [s[k]];
    hide IsNumeral;
    if k > 0 {
      NumeralUnique(s[..k], n / 10);
    }
  }

  lemma {:induction false} FirstDigit(s: string)
    requires s != [] && (forall i | 0 <= i < |s| :: '0' <= s[i] <= '9') && s[0] != '0'
    ensures NumeralValue(s) > 0
  {
    var k := |s| - 1;
    if k > 0 {
      FirstDigit(s[..k]);
    } else {
      assert NumeralValue(s[..0]) == 0;
    }
  }

  /** The blank nodes of a row: `_:u` or `_:g`, the number of the row, an underscore, and the label. */
  ghost predicate IsBlankNodeText(s: string, isGenerated: bool, rowId: nat, nodeLabel: string) {
    exists number :: IsNumeral(number, rowId) && s == (if isGenerated then "_:g" else "_:u") + number + "_" + nodeLabel
  }

  /** What may stand for a term at a position: an IRI for itself; a literal for itself, as object; a variable for the
      value of its column, which is undefined if the row does not have it; and a blank node for that of the row. */
  ghost predicate StandsFor(e: EvaluatedTerm, term: GraphTerm, position: nat, columns: VariableToColumnMap, resolve: Resolver,
                            row: Row, rowId: nat)
  {
    match term
    case Iri(iri) => e == EvaluatedTerm(iri, None)
    case Literal(literal) => position == 2 && e == EvaluatedTerm(literal, None)
    case Variable(name) =>
      name in columns && resolve(if columns[name] < |row| then row[columns[name]] else UNDEF) == Some(e)
    case BlankNode(isGenerated, nodeLabel) =>
      IsBlankNodeText(e.rdfTermString, isGenerated, rowId, nodeLabel) && e.rdfTermDataType == None
  }

  lemma TermForIff(term: GraphTerm, position: nat, columns: VariableToColumnMap, resolve: Resolver, row: Row, rowId: nat,
                   e: EvaluatedTerm)
    ensures StandsFor(e, term, position, columns, resolve, row, rowId)
       <==> TermFor(term, position, columns, resolve, row, rowId) == Some(e)
  {
    if term.BlankNode? {
      DecimalIsNumeral(rowId);
      hide IsNumeral;
      if IsBlankNodeText(e.rdfTermString, term.isGenerated, rowId, term.nodeLabel) {
        var number :| IsNumeral(number, rowId)
                      && e.rdfTermString == (if term.isGenerated then "_:g" else "_:u") + number + "_" + term.nodeLabel;
        NumeralUnique(number, rowId);
      }
    }
  }

  /** Subject, predicate and object of the triple stand for those of the template. */
  ghost predicate IsTripleFor(e: EvaluatedTriple, t: TemplateTriple, columns: VariableToColumnMap, resolve: Resolver, row: Row,
                              rowId: nat)
  {
    && StandsFor(e.subjectTerm, t[0], 0, columns, resolve, row, rowId)
    && StandsFor(e.predicateTerm, t[1], 1, columns, resolve, row, rowId)
    && StandsFor(e.objectTerm, t[2], 2, columns, resolve, row, rowId)
  }

  lemma TripleForIff(t: TemplateTriple, columns: VariableToColumnMap, resolve: Resolver, row: Row, rowId: nat, e: EvaluatedTriple)
    ensures e in TripleFor(t, columns, resolve, row, rowId) <==> IsTripleFor(e, t, columns, resolve, row, rowId)
    ensures |TripleFor(t, columns, resolve, row, rowId)| <= 1
  {
    TermForIff(t[0], 0, columns, resolve, row, rowId, e.subjectTerm);
    TermForIff(t[1], 1, columns, resolve, row, rowId, e.predicateTerm);
    TermForIff(t[2], 2, columns, resolve, row, rowId, e.objectTerm);
    hide StandsFor, TermFor;
  }

  ghost predicate HasTripleFor(e: EvaluatedTriple, ts: seq<TemplateTriple>, columns: VariableToColumnMap, resolve: Resolver,
                               row: Row, rowId: nat)
  {
    exists t: TemplateTriple :: t in ts && IsTripleFor(e, t, columns, resolve, row, rowId)
  }

  lemma {:induction false} TriplesForRowIff(ts: seq<TemplateTriple>, columns: VariableToColumnMap, resolve: Resolver, row: Row,
                                            rowId: nat, e: EvaluatedTriple)
    ensures e in TriplesForRow(ts, columns, resolve, row, rowId) <==> HasTripleFor(e, ts, columns, resolve, row, rowId)
  {
    hide IsTripleFor, TripleFor;
    if ts != [] {
      var n := |ts| - 1;
      assert ts == ts[..n] + [ts[n]];
      TriplesForRowIff(ts[..n], columns, resolve, row, rowId, e);
      TripleForIff(ts[n], columns, resolve, row, rowId, e);
      assert forall t | t in ts :: t in ts[..n] || t == ts[n];
    }
  }

  ghost predicate ComesFromRow(e: EvaluatedTriple, ts: seq<TemplateTriple>, columns: VariableToColumnMap, resolve: Resolver,
                               rows: seq<Row>, r: nat, base: nat)
  {
    r < |rows| && HasTripleFor(e, ts, columns, resolve, rows[r], base + r)
  }

  lemma {:induction false} TriplesForRowsIff(ts: seq<TemplateTriple>, columns: VariableToColumnMap, resolve: Resolver,
                                             rows: seq<Row>, begin: nat, end: nat, base: nat, e: EvaluatedTriple)
    requires begin <= end <= |rows|
    ensures e in TriplesForRows(ts, columns, resolve, rows, begin, end, base)
       <==> exists r: nat :: begin <= r < end && ComesFromRow(e, ts, columns, resolve, rows, r, base)
    decreases end
  {
    hide HasTripleFor, TriplesForRow;
    if begin < end {
      TriplesForRowsIff(ts, columns, resolve, rows, begin, end - 1, base, e);
      TriplesForRowIff(ts, columns, resolve, rows[end - 1], base + end - 1, e);
      assert ComesFromRow(e, ts, columns, resolve, rows, end - 1, base)
        <==> e in TriplesForRow(ts, columns, resolve, rows[end - 1], base + end - 1);
    }
  }
}
