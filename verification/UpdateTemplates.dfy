/**
 Templates of an update, with the ids of their constants looked up in advance.
 */
module UpdateTemplates {
  import opened Tables

  datatype TripleComponent = Variable(name: string) | Iri(iri: string) | Literal(literal: string) | Value(id: Id)

  datatype Graph = DefaultGraph | GraphIri(iri: string) | GraphVariable(name: string)

  datatype TripleTemplate = TripleTemplate(s: TripleComponent, p: TripleComponent, o: TripleComponent, g: Graph)

  /** Where the value of a template position comes from. */
  datatype IdOrVariableIndex = IdOf(id: Id) | ColumnIndex(column: nat)

  datatype TransformedTriple =
    TransformedTriple(s: IdOrVariableIndex, p: IdOrVariableIndex, o: IdOrVariableIndex, g: IdOrVariableIndex)

  type VariableToColumnMap = map<string, nat>

  /** Some IRIs have an id that needs no lookup in the vocabulary; every other term gets its id there,
      from the local vocabulary if need be. */
  datatype Vocabulary =
    Vocabulary(encode: string -> Option<Id>, lookup: TripleComponent -> Id, defaultGraphIri: string)

  // ---- The meaning of a template for one row --------------------------------------------------------

  function Defined(id: Id): Option<Id> {
    if id == UNDEF then None else Some(id)
  }

  function ConstantId(c: TripleComponent, v: Vocabulary): Id
    requires !c.Variable?
  {
    match c
    case Value(id) => id
    case Iri(iri) => if v.encode(iri).Some? then v.encode(iri).value else v.lookup(c)
    case Literal(_) => v.lookup(c)
  }

  ghost predicate FitsRow(columns: VariableToColumnMap, row: Row) {
    forall x | x in columns :: columns[x] < |row|
  }

  function ComponentValue(c: TripleComponent, columns: VariableToColumnMap, v: Vocabulary, row: Row): Option<Id>
    requires FitsRow(columns, row)
  {
    match c
    case Variable(name) => if name in columns then Defined(row[columns[name]]) else None
    case _ => Defined(ConstantId(c, v))
  }

  function GraphComponent(g: Graph, v: Vocabulary): TripleComponent {
    match g
    case DefaultGraph => Iri(v.defaultGraphIri)
    case GraphIri(iri) => Iri(iri)
    case GraphVariable(name) => Variable(name)
  }

  function Components(t: TripleTemplate, v: Vocabulary): seq<TripleComponent> {
    [t.s, t.p, t.o, GraphComponent(t.g, v)]
  }

  function QuadOf(s: Option<Id>, p: Option<Id>, o: Option<Id>, g: Option<Id>): Option<Quad> {
    if s.Some? && p.Some? && o.Some? && g.Some? then Some(Quad(s.value, p.value, o.value, g.value)) else None
  }

  /** The quad a template stands for in a row, if everything in it is bound. */
  function TemplateQuad(t: TripleTemplate, columns: VariableToColumnMap, v: Vocabulary, row: Row): Option<Quad>
    requires FitsRow(columns, row)
  {
    QuadOf(ComponentValue(t.s, columns, v, row), ComponentValue(t.p, columns, v, row),
           ComponentValue(t.o, columns, v, row), ComponentValue(GraphComponent(t.g, v), columns, v, row))
  }

  predicate KnowsVariable(columns: VariableToColumnMap, c: TripleComponent) {
    c.Variable? ==> c.name in columns
  }

  predicate VariablesKnown(t: TripleTemplate, columns: VariableToColumnMap, v: Vocabulary) {
    forall c | c in Components(t, v) :: KnowsVariable(columns, c)
  }

  // ---- The components of an instance ------------------------------------------------------------------

  /** The id of a component in a row. A variable has the value of its column; an IRI is encoded in its id if it can
      be, and looked up if not. Nothing stands for the undefined id. */
  ghost predicate Denotes(c: TripleComponent, columns: VariableToColumnMap, v: Vocabulary, row: Row, id: Id) {
    && id != UNDEF
    && match c
       case Variable(name) => name in columns && columns[name] < |row| && id == row[columns[name]]
       case Value(x) => id == x
       case Iri(iri) => if v.encode(iri).Some? then v.encode(iri) == Some(id) else id == v.lookup(Iri(iri))
       case Literal(literal) => id == v.lookup(Literal(literal))
  }

  /** The id of the graph: that of the default graph, of the IRI, or the value of the variable. */
  ghost predicate DenotesGraph(g: Graph, columns: VariableToColumnMap, v: Vocabulary, row: Row, id: Id) {
    match g
    case DefaultGraph => Denotes(Iri(v.defaultGraphIri), columns, v, row, id)
    case GraphIri(iri) => Denotes(Iri(iri), columns, v, row, id)
    case GraphVariable(name) => name in columns && columns[name] < |row| && id == row[columns[name]] != UNDEF
  }

  /** The quad is what the template stands for in the row, component by component. */
  ghost predicate IsInstance(t: TripleTemplate, columns: VariableToColumnMap, v: Vocabulary, row: Row, q: Quad) {
    && Denotes(t.s, columns, v, row, q.s) && Denotes(t.p, columns, v, row, q.p) && Denotes(t.o, columns, v, row, q.o)
    && DenotesGraph(t.g, columns, v, row, q.g)
  }

  /** The quad of a template is its only instance, and a template without instances has no quad. */
  lemma TemplateQuadIff(t: TripleTemplate, columns: VariableToColumnMap, v: Vocabulary, row: Row, q: Quad)
    requires FitsRow(columns, row)
    ensures TemplateQuad(t, columns, v, row) == Some(q) <==> IsInstance(t, columns, v, row, q)
  {}

  /** All variables of the template have columns. */
  ghost predicate HasColumns(t: TripleTemplate, columns: VariableToColumnMap) {
    && (t.s.Variable? ==> t.s.name in columns) && (t.p.Variable? ==> t.p.name in columns)
    && (t.o.Variable? ==> t.o.name in columns) && (t.g.GraphVariable? ==> t.g.name in columns)
  }

  lemma VariablesKnownIff(t: TripleTemplate, columns: VariableToColumnMap, v: Vocabulary)
    ensures VariablesKnown(t, columns, v) <==> HasColumns(t, columns)
  {
    var cs := Components(t, v);
    assert cs[0] in cs && cs[1] in cs && cs[2] in cs && cs[3] in cs;
  }

  // ---- The transformation ---------------------------------------------------------------------------

  /** What has to be looked up in the vocabulary. */
  predicate NeedsLookup(c: TripleComponent, v: Vocabulary) {
    c.Literal? || (c.Iri? && v.encode(c.iri).None?)
  }

  /** The lookup map holds everything that will be looked up in it. */
  ghost predicate LookupReady(lookup: map<TripleComponent, Id>, t: TripleTemplate, v: Vocabulary) {
    forall c | c in Components(t, v) && NeedsLookup(c, v) :: c in lookup && lookup[c] == v.lookup(c)
  }

  method CollectLookups(triples: seq<TripleTemplate>, v: Vocabulary) returns (items: set<TripleComponent>)
    ensures forall t, c | t in triples && c in Components(t, v) && NeedsLookup(c, v) :: c in items
    ensures Iri(v.defaultGraphIri) in items
    ensures forall c | c in items :: !c.Variable?
  {
    items := {};
    for k := 0 to |triples|
      invariant forall i, c | 0 <= i < k && c in Components(triples[i], v) && NeedsLookup(c, v) && c != Iri(v.defaultGraphIri) ::
        c in items
      invariant forall c | c in items :: !c.Variable?
    {
      var t := triples[k];
      var found: set<TripleComponent> := set c | c in [t.s, t.p, t.o] && NeedsLookup(c, v);
      var graph: set<TripleComponent> :=
        if t.g.GraphIri? && NeedsLookup(Iri(t.g.iri), v) then {Iri(t.g.iri)} else {};
      items := items + found + graph;
    }
    items := items + {Iri(v.defaultGraphIri)};
  }

  /** `None` if a variable has no column. */
  function LookupTc(c: TripleComponent, lookup: map<TripleComponent, Id>, columns: VariableToColumnMap, v: Vocabulary)
    : Option<IdOrVariableIndex>
    requires NeedsLookup(c, v) ==> c in lookup
  {
    match c
    case Variable(name) => if name in columns then Some(ColumnIndex(columns[name])) else None
    case Value(id) => Some(IdOf(id))
    case Iri(iri) => Some(IdOf(if v.encode(iri).Some? then v.encode(iri).value else lookup[c]))
    case Literal(_) => Some(IdOf(lookup[c]))
  }

  function TransformTriple(t: TripleTemplate, lookup: map<TripleComponent, Id>, columns: VariableToColumnMap, v: Vocabulary)
    : Option<TransformedTriple>
    requires LookupReady(lookup, t, v)
  {
    assert t.s in Components(t, v) && t.p in Components(t, v) && t.o in Components(t, v) && GraphComponent(t.g, v) in Components(t, v);
    var s, p, o, g := LookupTc(t.s, lookup, columns, v), LookupTc(t.p, lookup, columns, v),
                      LookupTc(t.o, lookup, columns, v), LookupTc(GraphComponent(t.g, v), lookup, columns, v);
    if s.Some? && p.Some? && o.Some? && g.Some? then Some(TransformedTriple(s.value, p.value, o.value, g.value)) else None
  }

  // ---- Resolving --------------------------------------------------------------------------------------

  ghost predicate InRow(v: IdOrVariableIndex, row: Row) {
    v.ColumnIndex? ==> v.column < |row|
  }

  ghost predicate TripleInRow(t: TransformedTriple, row: Row) {
    InRow(t.s, row) && InRow(t.p, row) && InRow(t.o, row) && InRow(t.g, row)
  }

  function ResolveVariable(row: Row, v: IdOrVariableIndex): Option<Id>
    requires InRow(v, row)
  {
    match v
    case ColumnIndex(column) => Defined(row[column])
    case IdOf(id) => Defined(id)
  }

  function ResolveTriple(row: Row, t: TransformedTriple): Option<Quad>
    requires TripleInRow(t, row)
  {
    QuadOf(ResolveVariable(row, t.s), ResolveVariable(row, t.p), ResolveVariable(row, t.o), ResolveVariable(row, t.g))
  }

  /** Looking constants up in advance changes nothing. */
  lemma ComponentMeaning(c: TripleComponent, lookup: map<TripleComponent, Id>, columns: VariableToColumnMap, v: Vocabulary, row: Row)
    requires FitsRow(columns, row) && KnowsVariable(columns, c)
    requires NeedsLookup(c, v) ==> c in lookup && lookup[c] == v.lookup(c)
    ensures var r := LookupTc(c, lookup, columns, v);
            r.Some? && InRow(r.value, row) && ResolveVariable(row, r.value) == ComponentValue(c, columns, v, row)
  {}

  lemma TripleMeaning(t: TripleTemplate, lookup: map<TripleComponent, Id>, columns: VariableToColumnMap, v: Vocabulary, row: Row)
    requires FitsRow(columns, row) && VariablesKnown(t, columns, v) && LookupReady(lookup, t, v)
    ensures var r := TransformTriple(t, lookup, columns, v);
            r.Some? && TripleInRow(r.value, row) && ResolveTriple(row, r.value) == TemplateQuad(t, columns, v, row)
  {
    var cs := Components(t, v);
    assert cs[0] in cs && cs[1] in cs && cs[2] in cs && cs[3] in cs;
    ComponentMeaning(cs[0], lookup, columns, v, row);
    ComponentMeaning(cs[1], lookup, columns, v, row);
    ComponentMeaning(cs[2], lookup, columns, v, row);
    ComponentMeaning(cs[3], lookup, columns, v, row);
  }

  lemma TransformsIff(t: TripleTemplate, lookup: map<TripleComponent, Id>, columns: VariableToColumnMap, v: Vocabulary)
    requires LookupReady(lookup, t, v)
    ensures TransformTriple(t, lookup, columns, v).Some? <==> VariablesKnown(t, columns, v)
  {
    var cs := Components(t, v);
    assert cs[0] in cs && cs[1] in cs && cs[2] in cs && cs[3] in cs;
  }

  /** The transformed triple yields the same quad as the template in every row. */
  ghost predicate Faithful(t: TripleTemplate, r: TransformedTriple, columns: VariableToColumnMap, v: Vocabulary) {
    forall row: Row | FitsRow(columns, row) ::
      TripleInRow(r, row) && ResolveTriple(row, r) == TemplateQuad(t, columns, v, row)
  }

  ghost predicate AllFaithful(ts: seq<TripleTemplate>, rs: seq<TransformedTriple>, columns: VariableToColumnMap, v: Vocabulary) {
    |rs| == |ts| && forall k | 0 <= k < |ts| :: Faithful(ts[k], rs[k], columns, v)
  }

  /** Fails exactly when a variable has no column. Otherwise the templates keep their meaning. */
  method TransformTriplesTemplate(triples: seq<TripleTemplate>, columns: VariableToColumnMap, v: Vocabulary)
    returns (r: Option<seq<TransformedTriple>>)
    ensures r.Some? <==> forall t | t in triples :: HasColumns(t, columns)
    ensures r.Some? ==> AllFaithful(triples, r.value, columns, v)
  {
    var items := CollectLookups(triples, v);
    var lookup := map c | c in items :: v.lookup(c);
    var result: seq<TransformedTriple> := [];
    for k := 0 to |triples|
      invariant forall i | 0 <= i < k :: HasColumns(triples[i], columns)
      invariant AllFaithful(triples[..k], result, columns, v)
    {
      var t := triples[k];
      assert LookupReady(lookup, t, v);
      TransformsIff(t, lookup, columns, v);
      VariablesKnownIff(t, columns, v);
      var x := TransformTriple(t, lookup, columns, v);
      if x.None? {
        return None;
      }
      forall row: Row | FitsRow(columns, row) {
        TripleMeaning(t, lookup, columns, v, row);
      }
      result := result + [x.value];
    }
    assert triples[..|triples|] == triples;
    return Some(result);
  }
}
