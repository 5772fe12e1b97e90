/**
 The graphs that the clauses FROM, FROM NAMED and GRAPH make active.
 */
module Datasets {
  import opened Tables

  type Var = string

  /** FROM and FROM NAMED; `None` if there is no such clause. */
  datatype DatasetClauses = DatasetClauses(defaultGraphs: Option<set<Id>>, namedGraphs: Option<set<Id>>) {

    predicate IsUnconstrained() {
      defaultGraphs.None? && namedGraphs.None?
    }

    function ActiveDefaultGraphs(): Option<set<Id>> {
      if IsUnconstrained() || defaultGraphs.Some? then defaultGraphs else Some({})
    }

    function NamedGraphs(): Option<set<Id>> {
      if IsUnconstrained() || namedGraphs.Some? then namedGraphs else Some({})
    }

    predicate IsCompatibleNamedGraph(g: Id) {
      IsUnconstrained() || (NamedGraphs().Some? && g in NamedGraphs().value)
    }

    function GetDatasetClauseForGraphClause(g: Id): DatasetClauses {
      DatasetClauses(Some(if IsCompatibleNamedGraph(g) then {g} else {}), None)
    }

    function GetDatasetClauseForVariableGraphClause(): DatasetClauses {
      DatasetClauses(NamedGraphs(), namedGraphs)
    }
  }

  const UNCONSTRAINED: DatasetClauses := DatasetClauses(None, None)

  /** Whether a graph variable ranges over the default graph, too. */
  datatype GraphVariableBehaviour = ALL | NAMED

  datatype GraphSpec = NoGraph | GraphIri(g: Id) | GraphVariable(v: Var, behaviour: GraphVariableBehaviour)

  /** What the GRAPH clauses around a pattern make of the dataset of the query. */
  datatype Context = Context(dataset: DatasetClauses, behaviour: GraphVariableBehaviour, graphVariable: Option<Var>)

  /** Outside all GRAPH clauses. */
  function TopLevel(dataset: DatasetClauses): Context {
    Context(dataset, ALL, None)
  }

  function ContextIn(spec: GraphSpec, outer: Context): Context {
    match spec
    case NoGraph => outer
    case GraphIri(g) => outer.(dataset := outer.dataset.GetDatasetClauseForGraphClause(g))
    case GraphVariable(v, behaviour) =>
      Context(outer.dataset.GetDatasetClauseForVariableGraphClause(), behaviour, Some(v))
  }

  datatype GraphFilter = AllGraphs | Whitelist(graphs: set<Id>) | Blacklist(g: Id) {
    predicate IsGraphAllowed(graph: Id) {
      match this
      case AllGraphs => true
      case Whitelist(graphs) => graph in graphs
      case Blacklist(g) => graph != g
    }
  }

  function GetActiveGraphs(c: Context, defaultGraph: Id): GraphFilter {
    if c.dataset.ActiveDefaultGraphs().Some? then Whitelist(c.dataset.ActiveDefaultGraphs().value)
    else if c.behaviour == NAMED then Blacklist(defaultGraph)
    else AllGraphs
  }

  // ---- Nested GRAPH clauses -----------------------------------------------------------------------------

  /** The context inside all of the clauses, the innermost of which comes last. */
  function Nested(specs: seq<GraphSpec>, dataset: DatasetClauses): Context {
    if specs == [] then TopLevel(dataset) else ContextIn(specs[|specs| - 1], Nested(specs[..|specs| - 1], dataset))
  }

  /** What the clauses around a triple amount to: the default graph, all named graphs, one graph, or none. */
  datatype Scope = DefaultScope | NamedScope(behaviour: GraphVariableBehaviour) | GraphScope(g: Id) | NoScope

  /** A GRAPH clause inside one with an IRI sees no graph. */
  ghost function ScopeOf(specs: seq<GraphSpec>): Scope {
    if specs == [] then DefaultScope else
      var outer, inner := ScopeOf(specs[..|specs| - 1]), specs[|specs| - 1];
      match inner
      case NoGraph => outer
      case GraphIri(g) => if outer.GraphScope? || outer.NoScope? then NoScope else GraphScope(g)
      case GraphVariable(_, behaviour) => if outer.GraphScope? || outer.NoScope? then NoScope else NamedScope(behaviour)
  }

  /** The query may use the graph in GRAPH clauses. */
  ghost predicate IsNamed(dataset: DatasetClauses, g: Id) {
    (dataset.defaultGraphs.None? && dataset.namedGraphs.None?) || (dataset.namedGraphs.Some? && g in dataset.namedGraphs.value)
  }

  ghost predicate Sees(scope: Scope, dataset: DatasetClauses, defaultGraph: Id, g: Id) {
    match scope
    case DefaultScope =>
      || (dataset.defaultGraphs.None? && dataset.namedGraphs.None?)
      || (dataset.defaultGraphs.Some? && g in dataset.defaultGraphs.value)
    case NamedScope(behaviour) =>
      IsNamed(dataset, g) && (dataset.namedGraphs.None? && behaviour == NAMED ==> g != defaultGraph)
    case GraphScope(h) => g == h && IsNamed(dataset, g)
    case NoScope => false
  }

  /** The dataset clauses that apply inside, by the scope. */
  ghost predicate Narrowed(scope: Scope, dataset: DatasetClauses, c: Context) {
    match scope
    case DefaultScope => c.dataset == dataset && c.behaviour == ALL
    case NamedScope(behaviour) =>
      c.dataset == DatasetClauses(dataset.NamedGraphs(), dataset.namedGraphs) && c.behaviour == behaviour
    case GraphScope(g) => c.dataset == DatasetClauses(Some(if IsNamed(dataset, g) then {g} else {}), None)
    case NoScope => c.dataset == DatasetClauses(Some({}), None)
  }

  lemma {:induction false} NestedIsNarrowed(specs: seq<GraphSpec>, dataset: DatasetClauses)
    ensures Narrowed(ScopeOf(specs), dataset, Nested(specs, dataset))
  {
    if specs != [] {
      NestedIsNarrowed(specs[..|specs| - 1], dataset);
    }
  }

  /** The graphs that a triple sees inside GRAPH clauses, nested in any way. */
  lemma ActiveGraphsIff(specs: seq<GraphSpec>, dataset: DatasetClauses, defaultGraph: Id, g: Id)
    ensures GetActiveGraphs(Nested(specs, dataset), defaultGraph).IsGraphAllowed(g)
       <==> Sees(ScopeOf(specs), dataset, defaultGraph, g)
  {
    NestedIsNarrowed(specs, dataset);
  }
}
