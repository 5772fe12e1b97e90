/**
 Graph patterns of queries, their solutions as the planner arranges them, and where variables occur.
 */
module GraphPatterns {
  import opened Tables
  import opened Datasets

  /** A solution binds some of the variables. */
  type Mapping = map<Var, Id>

  /** A constant may be an IRI that is internal to the engine: one with the internal prefix, or one that
      begins with an `@`. */
  datatype TripleComponent = Variable(name: Var) | Constant(id: Id, isInternal: bool)

  /** Some predicates have a meaning of their own. All but variables and property paths are simple. */
  datatype Predicate =
    | PredicateVariable(name: Var)
    | SimpleIri(iri: Id)
    /** Further internal IRIs. */
    | InternalIri(iri: Id)
    | HasPredicate
    | HasPattern
    /** `ql:contains-word` and `ql:contains-entity`. */
    | TextPredicate(iri: Id, relation: (Id, Id) -> bool)
    /** `<max-distance-in-meters:..>` and `<nearest-neighbors:..>`. */
    | SpatialPredicate(iri: Id, relation: (Id, Id) -> bool)
    | ViewPredicate(iri: Id, relation: (Id, Id) -> bool)
    /** `expansion` are the triples that the planner puts in its place among the other triples. */
    | PropertyPath(path: (set<Triple>, Id, Id) -> bool, expansion: seq<SparqlTriple>)

  /** Which pattern an additional column of a scan holds. */
  datatype AdditionalColumn = SubjectPattern | ObjectPattern

  datatype SparqlTriple =
    SparqlTriple(s: TripleComponent, p: Predicate, o: TripleComponent, additionalScanColumns: seq<(AdditionalColumn, Var)>)

  /** `vars` are the variables the expression mentions. */
  datatype Filter = Filter(vars: set<Var>, holds: Mapping -> bool)

  datatype GraphPattern = GraphPattern(filters: seq<Filter>, operations: seq<Operation>)

  datatype Operation =
    | BasicGraphPattern(triples: seq<SparqlTriple>)
    | Optional(child: GraphPattern)
    | GroupGraphPattern(child: GraphPattern, graphSpec: GraphSpec)
    | Minus(child: GraphPattern)
    | Union(child1: GraphPattern, child2: GraphPattern)
    | Subquery(selectedVariables: set<Var>, solutionsIn: (Context, Mapping) -> bool)
    | Values(variables: set<Var>, solutions: Mapping -> bool)
    | Service(visibleVariables: set<Var>, solutions: Mapping -> bool)
    | MagicService(variables: set<Var>, solutionsIn: (Context, Mapping) -> bool)
    | Bind(target: Var, vars: set<Var>, expression: Mapping -> Option<Id>)

  /** The quads of the index, those of its internal part, and the pattern of each id: the index of a list
      of predicates. */
  datatype Data = Data(quads: set<Quad>, internalQuads: set<Quad>, defaultGraph: Id, internalGraph: Id, hasPatternIri: Id,
                       patternOf: Id -> nat, patterns: seq<seq<Id>>)

  /** The pattern of an id that is the subject of no triple. */
  const NO_PATTERN: nat := 0x7FFF_FFFF

  // ---- Scans ------------------------------------------------------------------------------------------

  /** What the planner makes of a triple. */
  datatype ScanKind = OrdinaryScan | InternalScan | HasPredicateScan | SpecialScan | PathScan

  function KindOf(t: SparqlTriple): ScanKind {
    match t.p
    case TextPredicate(_, _) => SpecialScan
    case SpatialPredicate(_, _) => SpecialScan
    case ViewPredicate(_, _) => SpecialScan
    case HasPredicate => HasPredicateScan
    case PropertyPath(_, _) => PathScan
    case _ =>
      if IsInternal(t.s) || t.p.InternalIri? || t.p.HasPattern? || IsInternal(t.o) then InternalScan else OrdinaryScan
  }

  predicate IsInternal(c: TripleComponent) {
    c.Constant? && c.isInternal
  }

  /** Inside a GRAPH clause with a variable, the scans of the index bind this variable. */
  predicate BindsGraph(t: SparqlTriple) {
    KindOf(t) in {OrdinaryScan, InternalScan, PathScan}
  }

  function ComponentVars(c: TripleComponent): set<Var> {
    match c
    case Variable(name) => {name}
    case Constant(_, _) => {}
  }

  function PredicateVars(p: Predicate): set<Var> {
    match p
    case PredicateVariable(name) => {name}
    case _ => {}
  }

  ghost function ColumnVars(t: SparqlTriple): set<Var> {
    set i | 0 <= i < |t.additionalScanColumns| :: t.additionalScanColumns[i].1
  }

  function GraphVars(c: Context): set<Var> {
    if c.graphVariable.Some? then {c.graphVariable.value} else {}
  }

  /** The variables that a solution of the triple binds. Only the ordinary permutations store the patterns,
      so only their scans deliver additional columns. */
  ghost function TripleVars(c: Context, t: SparqlTriple): set<Var> {
    ComponentVars(t.s) + PredicateVars(t.p) + ComponentVars(t.o)
    + (if KindOf(t) == OrdinaryScan then ColumnVars(t) else {})
    + (if BindsGraph(t) then GraphVars(c) else {})
  }

  ghost function VarsOf(c: Context, ts: seq<SparqlTriple>): set<Var> {
    set t, v | t in ts && v in TripleVars(c, t) :: v
  }

  function ValueOf(t: TripleComponent, m: Mapping): Id
    requires ComponentVars(t) <= m.Keys
  {
    match t
    case Variable(name) => m[name]
    case Constant(id, _) => id
  }

  /** The triples of the quads that a scan sees; with a graph variable, those of one graph only. */
  ghost function Scanned(d: Data, c: Context, quads: set<Quad>, m: Mapping): set<Triple>
    requires GraphVars(c) <= m.Keys
  {
    set q | q in quads && GetActiveGraphs(c, d.defaultGraph).IsGraphAllowed(q.g)
            && (c.graphVariable.Some? ==> q.g == m[c.graphVariable.value])
         :: Triple(q.s, q.p, q.o)
  }

  function PredicateValue(d: Data, p: Predicate, m: Mapping): Id
    requires PredicateVars(p) <= m.Keys
  {
    match p
    case PredicateVariable(name) => m[name]
    case SimpleIri(iri) => iri
    case InternalIri(iri) => iri
    case HasPattern => d.hasPatternIri
    case _ => UNDEF
  }

  /** The pattern lists the predicate. */
  ghost predicate Lists(d: Data, pattern: nat, p: Id) {
    pattern < |d.patterns| && p in d.patterns[pattern]
  }

  ghost predicate MatchesScan(d: Data, c: Context, t: SparqlTriple, m: Mapping)
    requires TripleVars(c, t) <= m.Keys
  {
    var s, o := ValueOf(t.s, m), ValueOf(t.o, m);
    match KindOf(t)
    case OrdinaryScan => Triple(s, PredicateValue(d, t.p, m), o) in Scanned(d, c, d.quads, m)
    case InternalScan => Triple(s, PredicateValue(d, t.p, m), o) in Scanned(d, c, d.internalQuads, m)
    case HasPredicateScan => Lists(d, d.patternOf(s), o)
    case SpecialScan => SpecialRelation(t.p)(s, o)
    case PathScan => t.p.path(Scanned(d, c, d.quads, m), s, o)
  }

  function SpecialRelation(p: Predicate): (Id, Id) -> bool
    requires p.TextPredicate? || p.SpatialPredicate? || p.ViewPredicate?
  {
    p.relation
  }

  /** The triple is found, and the additional columns that are delivered hold the patterns. */
  ghost predicate Matches(d: Data, c: Context, t: SparqlTriple, m: Mapping)
    requires TripleVars(c, t) <= m.Keys
  {
    && MatchesScan(d, c, t, m)
    && (KindOf(t) == OrdinaryScan ==>
          forall i | 0 <= i < |t.additionalScanColumns| ::
            m[t.additionalScanColumns[i].1] == d.patternOf(ColumnSource(t, t.additionalScanColumns[i].0, m)))
  }

  function ColumnSource(t: SparqlTriple, column: AdditionalColumn, m: Mapping): Id
    requires ComponentVars(t.s) + ComponentVars(t.o) <= m.Keys
  {
    match column
    case SubjectPattern => ValueOf(t.s, m)
    case ObjectPattern => ValueOf(t.o, m)
  }

  ghost predicate MatchesAll(d: Data, c: Context, ts: seq<SparqlTriple>, m: Mapping) {
    VarsOf(c, ts) <= m.Keys && forall t | t in ts :: TripleVars(c, t) <= m.Keys && Matches(d, c, t, m)
  }

  // ---- Solutions ------------------------------------------------------------------------------------

  ghost predicate Compatible(a: Mapping, b: Mapping) {
    forall v | v in a && v in b :: a[v] == b[v]
  }

  ghost predicate FiltersHold(filters: seq<Filter>, m: Mapping) {
    forall f | f in filters :: f.holds(m)
  }

  /** The solutions that do not depend on what has been matched before. */
  ghost predicate OwnSolution(d: Data, c: Context, op: Operation, m: Mapping)
    decreases op, 1
  {
    match op
    case BasicGraphPattern(triples) => m.Keys == VarsOf(c, triples) && MatchesAll(d, c, triples, m)
    case GroupGraphPattern(child, spec) => IsSolution(d, ContextIn(spec, c), child, m)
    case Union(child1, child2) => IsSolution(d, c, child1, m) || IsSolution(d, c, child2, m)
    case Subquery(_, solutionsIn) => solutionsIn(c, m)
    case Values(_, solutions) => solutions(m)
    case Service(_, solutions) => solutions(m)
    case MagicService(_, solutionsIn) => solutionsIn(c, m)
    case _ => false
  }

  /** The filters of an optional pattern apply to the joined solution. */
  ghost predicate OptionalMatch(d: Data, c: Context, child: GraphPattern, m: Mapping, n: Mapping)
    decreases child, 1
  {
    Run(d, c, child.operations, map[], n) && Compatible(m, n) && FiltersHold(child.filters, m + n)
  }

  ghost predicate Excluded(d: Data, c: Context, child: GraphPattern, m: Mapping)
    decreases child, 2
  {
    exists n :: IsSolution(d, c, child, n) && Compatible(m, n) && m.Keys * n.Keys != {}
  }

  /** The operation turns the solution `m` of what precedes it into `m'`. */
  ghost predicate Step(d: Data, c: Context, op: Operation, m: Mapping, m': Mapping)
    decreases op, 2
  {
    match op
    case Optional(child) =>
      || (exists n :: OptionalMatch(d, c, child, m, n) && m' == m + n)
      || (m' == m && !exists n :: OptionalMatch(d, c, child, m, n))
    case Minus(child) => m' == m && !Excluded(d, c, child, m)
    case Bind(target, _, expression) =>
      && target !in m
      && (match expression(m) case None => m' == m case Some(x) => m' == m[target := x])
    case _ => exists n :: OwnSolution(d, c, op, n) && Compatible(m, n) && m' == m + n
  }

  ghost predicate Run(d: Data, c: Context, ops: seq<Operation>, m: Mapping, m': Mapping)
    decreases ops
  {
    if ops == [] then m == m' else
      var init, last := ops[..|ops| - 1], ops[|ops| - 1];
      exists n :: Run(d, c, init, m, n) && Step(d, c, last, n, m')
  }

  ghost predicate IsSolution(d: Data, c: Context, p: GraphPattern, m: Mapping)
    decreases p, 1
  {
    Run(d, c, p.operations, map[], m) && FiltersHold(p.filters, m)
  }

  // ---- The columns of the result ------------------------------------------------------------------------

  /** The result of the pattern has a column for the variable. */
  ghost predicate HasColumn(v: Var, c: Context, p: GraphPattern)
    decreases p
  {
    exists i: nat | i < |p.operations| :: OperationHasColumn(v, c, p.operations[i])
  }

  ghost predicate OperationHasColumn(v: Var, c: Context, op: Operation)
    decreases op, 1
  {
    match op
    case BasicGraphPattern(triples) => v in VarsOf(c, triples)
    case Optional(child) => HasColumn(v, c, child)
    case GroupGraphPattern(child, spec) => HasColumn(v, ContextIn(spec, c), child)
    case Minus(_) => false
    case Union(child1, child2) => HasColumn(v, c, child1) || HasColumn(v, c, child2)
    case Subquery(selectedVariables, _) => v in selectedVariables
    case Values(variables, _) => v in variables
    case Service(visibleVariables, _) => v in visibleVariables
    case MagicService(variables, _) => v in variables
    case Bind(target, _, _) => v == target
  }

  // ---- Where variables occur, as the engine checks it -----------------------------------------------------

  predicate IsVariableContainedInTriple(v: Var, t: SparqlTriple) {
    t.s == Variable(v) || (t.p.PredicateVariable? && t.p.name == v) || t.o == Variable(v)
  }

  /** `ignore` is the position of the triple to ignore, if it is one of the operation's own triples. */
  predicate IsVariableContainedInOperation(v: Var, op: Operation, ignore: Option<nat>)
    decreases op, 1
  {
    match op
    case BasicGraphPattern(triples) =>
      exists i: nat | i < |triples| :: Some(i) != ignore && IsVariableContainedInTriple(v, triples[i])
    case Optional(child) => IsVariableContainedInGraphPattern(v, child, None)
    case GroupGraphPattern(child, _) => IsVariableContainedInGraphPattern(v, child, None)
    case Minus(child) => IsVariableContainedInGraphPattern(v, child, None)
    case Union(child1, child2) =>
      IsVariableContainedInGraphPattern(v, child1, None) || IsVariableContainedInGraphPattern(v, child2, None)
    case Subquery(selectedVariables, _) => v in selectedVariables
    case Values(variables, _) => v in variables
    case Service(visibleVariables, _) => v in visibleVariables
    case MagicService(_, _) => true
    case Bind(target, vars, _) => v == target || v in vars
  }

  /** `ignore` is the position of the triple to ignore: of the operation, and of the triple in it. */
  predicate IsVariableContainedInGraphPattern(v: Var, p: GraphPattern, ignore: Option<(nat, nat)>)
    decreases p
  {
    || (exists i: nat | i < |p.filters| :: v in p.filters[i].vars)
    || exists i: nat | i < |p.operations| ::
         IsVariableContainedInOperation(v, p.operations[i],
                                        if ignore.Some? && ignore.value.0 == i then Some(ignore.value.1) else None)
  }

  // ---- Where variables do occur ---------------------------------------------------------------------------

  /** The variable of a GRAPH clause in the operation: the one occurrence that the check does not see. */
  predicate IsGraphVariableInOperation(v: Var, op: Operation)
    decreases op, 1
  {
    match op
    case GroupGraphPattern(child, spec) => (spec.GraphVariable? && spec.v == v) || IsGraphVariableInGraphPattern(v, child)
    case Optional(child) => IsGraphVariableInGraphPattern(v, child)
    case Minus(child) => IsGraphVariableInGraphPattern(v, child)
    case Union(child1, child2) => IsGraphVariableInGraphPattern(v, child1) || IsGraphVariableInGraphPattern(v, child2)
    case _ => false
  }

  predicate IsGraphVariableInGraphPattern(v: Var, p: GraphPattern)
    decreases p
  {
    exists i: nat | i < |p.operations| :: IsGraphVariableInOperation(v, p.operations[i])
  }

  function SpecVars(spec: GraphSpec): set<Var> {
    match spec
    case GraphVariable(v, _) => {v}
    case _ => {}
  }

  ghost function AllTripleVars(t: SparqlTriple): set<Var> {
    ComponentVars(t.s) + PredicateVars(t.p) + ComponentVars(t.o) + ColumnVars(t)
  }

  ghost function OperationVars(op: Operation): set<Var>
    decreases op, 1
  {
    match op
    case BasicGraphPattern(triples) => set t, v | t in triples && v in AllTripleVars(t) :: v
    case Optional(child) => PatternVars(child)
    case GroupGraphPattern(child, spec) => PatternVars(child) + SpecVars(spec)
    case Minus(child) => PatternVars(child)
    case Union(child1, child2) => PatternVars(child1) + PatternVars(child2)
    case Subquery(selectedVariables, _) => selectedVariables
    case Values(variables, _) => variables
    case Service(visibleVariables, _) => visibleVariables
    case MagicService(variables, _) => variables
    case Bind(target, vars, _) => {target} + vars
  }

  /** All variables that can be bound by the pattern or can influence its solutions. */
  ghost function PatternVars(p: GraphPattern): set<Var>
    decreases p
  {
    (set i, v | 0 <= i < |p.filters| && v in p.filters[i].vars :: v)
    + set i, v | 0 <= i < |p.operations| && v in OperationVars(p.operations[i]) :: v
  }

  // ---- What parsed patterns look like -------------------------------------------------------------------

  ghost predicate AgreeOn(vars: set<Var>, a: Mapping, b: Mapping) {
    forall v | v in vars :: (v in a <==> v in b) && (v in a && v in b ==> a[v] == b[v])
  }

  ghost predicate FilterDependsOn(f: Filter) {
    forall a, b | AgreeOn(f.vars, a, b) :: f.holds(a) <==> f.holds(b)
  }

  ghost predicate ExpressionDependsOn(vars: set<Var>, expression: Mapping -> Option<Id>) {
    forall a, b | AgreeOn(vars, a, b) :: expression(a) == expression(b)
  }

  ghost predicate BindOnly(vars: set<Var>, solutions: Mapping -> bool) {
    forall m | solutions(m) :: m.Keys <= vars
  }

  ghost predicate BindOnlyIn(vars: set<Var>, solutionsIn: (Context, Mapping) -> bool) {
    forall c, m | solutionsIn(c, m) :: m.Keys <= vars
  }

  /** Expressions depend only on the variables they mention, the other operations bind only variables
      they show, and no triple has additional columns. */
  ghost predicate WellFormed(p: GraphPattern)
    decreases p
  {
    && (forall f | f in p.filters :: FilterDependsOn(f))
    && forall op | op in p.operations :: WellFormedOperation(op)
  }

  ghost predicate WellFormedOperation(op: Operation)
    decreases op
  {
    match op
    case BasicGraphPattern(triples) => forall t | t in triples :: t.additionalScanColumns == []
    case Optional(child) => WellFormed(child)
    case GroupGraphPattern(child, _) => WellFormed(child)
    case Minus(child) => WellFormed(child)
    case Union(child1, child2) => WellFormed(child1) && WellFormed(child2)
    case Subquery(selectedVariables, solutionsIn) => BindOnlyIn(selectedVariables, solutionsIn)
    case Values(variables, solutions) => BindOnly(variables, solutions)
    case Service(visibleVariables, solutions) => BindOnly(visibleVariables, solutions)
    case MagicService(variables, solutionsIn) => BindOnlyIn(variables, solutionsIn)
    case Bind(_, vars, expression) => ExpressionDependsOn(vars, expression)
  }
}
