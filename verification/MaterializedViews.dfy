/**
 Replacing several triples of a pattern by one scan of a materialized view: which triples can be replaced, and
 what becomes of their additional columns.
 */
module MaterializedViews {
  import opened Tables
  import opened Datasets
  import opened GraphPatterns

  /** The IRI of a simple predicate. */
  datatype PredicateName = Named(iri: Id) | HasPredicateName | HasPatternName

  /** What the query of a view joins: `?s <first> ?m . ?m <second> ?o`, or several predicates of one subject.
      Of a chain it matters whether its subject is the first column of the view. */
  datatype View =
    | Chain(first: PredicateName, second: PredicateName, subjectIsFirstColumn: bool)
    | Star(arms: set<PredicateName>)

  function GetSimplePredicate(p: Predicate): Option<PredicateName> {
    match p
    case PredicateVariable(_) => None
    case PropertyPath(_, _) => None
    case HasPredicate => Some(HasPredicateName)
    case HasPattern => Some(HasPatternName)
    case SimpleIri(iri) => Some(Named(iri))
    case InternalIri(iri) => Some(Named(iri))
    case TextPredicate(iri, _) => Some(Named(iri))
    case SpatialPredicate(iri, _) => Some(Named(iri))
    case ViewPredicate(iri, _) => Some(Named(iri))
  }

  function ViewPredicates(v: View): set<PredicateName> {
    match v
    case Chain(first, second, _) => {first, second}
    case Star(arms) => arms
  }

  // ---- The triples that are planned together ------------------------------------------------------------

  /** The triples as the planner collects them, with property paths expanded. */
  ghost function Collect(ts: seq<SparqlTriple>): seq<SparqlTriple> {
    if ts == [] then [] else
      var t := ts[|ts| - 1];
      Collect(ts[..|ts| - 1]) + if t.p.PropertyPath? then t.p.expansion else [t]
  }

  ghost function CollectAll(ops: seq<Operation>): seq<SparqlTriple> {
    if ops == [] then [] else
      var op := ops[|ops| - 1];
      CollectAll(ops[..|ops| - 1]) + if op.BasicGraphPattern? then Collect(op.triples) else []
  }

  /** The variable counts as bound once the operation has been planned. */
  ghost predicate MakesBound(v: Var, c: Context, op: Operation) {
    match op
    case BasicGraphPattern(triples) =>
      exists t :: t in triples && v in ComponentVars(t.s) + PredicateVars(t.p) + ComponentVars(t.o)
    case Minus(child) => HasColumn(v, c, child)
    case _ => OperationHasColumn(v, c, op)
  }

  /** The triples before the operation are planned before it: so BIND does, and OPTIONAL and MINUS, unless they
      share no variable with what precedes them. */
  ghost predicate IsBarrier(c: Context, ops: seq<Operation>, k: nat)
    requires k < |ops|
  {
    match ops[k]
    case Bind(_, _, _) => true
    case Optional(child) => SharesBound(c, ops, k, child)
    case Minus(child) => SharesBound(c, ops, k, child)
    case _ => false
  }

  ghost predicate SharesBound(c: Context, ops: seq<Operation>, k: nat, child: GraphPattern)
    requires k < |ops|
  {
    exists v, m: nat :: m < k && MakesBound(v, c, ops[m]) && HasColumn(v, c, child)
  }

  /** The operations `begin .. end - 1` are those around operation `i` between two barriers. */
  ghost predicate IsSegment(c: Context, ops: seq<Operation>, i: nat, begin: nat, end: nat) {
    && begin <= i < end <= |ops|
    && (forall k: nat | begin <= k < end :: !IsBarrier(c, ops, k))
    && (begin > 0 ==> IsBarrier(c, ops, begin - 1))
    && (end < |ops| ==> IsBarrier(c, ops, end))
  }

  // ---- Which triples a view can replace -------------------------------------------------------------------

  ghost predicate KnownPredicate(views: set<View>, t: SparqlTriple) {
    && GetSimplePredicate(t.p).Some?
    && exists v :: v in views && GetSimplePredicate(t.p).value in ViewPredicates(v)
  }

  /** The triple can be the right side of a chain, and an arm of a star. */
  ghost predicate IsChainRight(views: set<View>, t: SparqlTriple) {
    KnownPredicate(views, t) && t.o.Variable? && t.s.Variable?
  }

  ghost predicate IsChainLeft(views: set<View>, t: SparqlTriple) {
    KnownPredicate(views, t) && t.o.Variable? && t.s != t.o
  }

  /** The view replaces the triples at the two positions. */
  ghost predicate ReplacesChain(views: set<View>, v: View, ts: seq<SparqlTriple>, l: nat, r: nat) {
    && v in views && v.Chain? && l < |ts| && r < |ts|
    && IsChainLeft(views, ts[l]) && IsChainRight(views, ts[r]) && ts[r].s == ts[l].o
    && GetSimplePredicate(ts[l].p) == Some(v.first) && GetSimplePredicate(ts[r].p) == Some(v.second)
    && (ts[l].s.Variable? || v.subjectIsFirstColumn)
  }

  /** The object differs from the subject and from the objects of earlier triples of the subject. */
  ghost predicate HasOwnObject(views: set<View>, ts: seq<SparqlTriple>, s: Var, n: nat) {
    && n < |ts| && IsChainRight(views, ts[n]) && ts[n].s == Variable(s) && ts[n].o != Variable(s)
    && forall m | 0 <= m < n && IsChainRight(views, ts[m]) && ts[m].s == Variable(s) && ts[m].o != Variable(s) ::
         ts[m].o != ts[n].o
  }

  /** Each predicate counts for the first such triple. */
  ghost predicate IsArm(views: set<View>, ts: seq<SparqlTriple>, s: Var, n: nat) {
    && HasOwnObject(views, ts, s, n)
    && forall m: nat | m < n && HasOwnObject(views, ts, s, m) :: GetSimplePredicate(ts[m].p) != GetSimplePredicate(ts[n].p)
  }

  /** All arms of the view are among the triples of the subject, and the triple at position `n` is one of them. */
  ghost predicate ReplacesStar(views: set<View>, v: View, ts: seq<SparqlTriple>, s: Var, n: nat) {
    && v in views && v.Star? && |v.arms| >= 2
    && (forall arm | arm in v.arms :: exists m: nat :: IsArm(views, ts, s, m) && GetSimplePredicate(ts[m].p) == Some(arm))
    && IsArm(views, ts, s, n) && GetSimplePredicate(ts[n].p).value in v.arms
  }

  /** Some view can replace the triple at position `n` together with others. */
  ghost predicate IsReplaceable(views: set<View>, ts: seq<SparqlTriple>, n: nat) {
    || (exists v, m: nat :: ReplacesChain(views, v, ts, n, m) || ReplacesChain(views, v, ts, m, n))
    || exists v, s: Var :: ReplacesStar(views, v, ts, s, n)
  }

  /** A view covers triple `k` of operation `i`: it can replace it together with other triples that are planned
      with it. */
  ghost predicate IsCovered(views: set<View>, c: Context, ops: seq<Operation>, i: nat, k: nat)
    requires i < |ops| && ops[i].BasicGraphPattern? && k < |ops[i].triples|
  {
    exists begin: nat, end: nat :: IsSegment(c, ops, i, begin, end) && CoveredIn(views, ops, i, k, begin, end)
  }

  ghost predicate CoveredIn(views: set<View>, ops: seq<Operation>, i: nat, k: nat, begin: nat, end: nat)
    requires i < |ops| && ops[i].BasicGraphPattern? && k < |ops[i].triples|
  {
    && begin <= i < end <= |ops|
    && IsReplaceable(views, CollectAll(ops[begin..end]), |CollectAll(ops[begin..i])| + |Collect(ops[i].triples[..k])|)
  }

  // ---- What the planner may make of a pattern ---------------------------------------------------------------

  /** The pattern as the planner may have planned it: a scan of a view has none of the additional columns of the
      triples it replaces, and the planner may replace each covered triple or not. */
  ghost predicate MayPlan(views: set<View>, c: Context, p: GraphPattern, planned: GraphPattern) {
    && planned.filters == p.filters && |planned.operations| == |p.operations|
    && forall i: nat | i < |p.operations| :: MayPlanOperation(views, c, p.operations, i, planned.operations[i])
  }

  ghost predicate MayPlanOperation(views: set<View>, c: Context, ops: seq<Operation>, i: nat, planned: Operation)
    requires i < |ops|
  {
    || planned == ops[i]
    || (&& ops[i].BasicGraphPattern? && planned.BasicGraphPattern? && |planned.triples| == |ops[i].triples|
        && forall k: nat | k < |ops[i].triples| ::
             || planned.triples[k] == ops[i].triples[k]
             || (IsCovered(views, c, ops, i, k) && planned.triples[k] == WithoutColumns(ops[i].triples[k])))
  }

  function WithoutColumns(t: SparqlTriple): SparqlTriple {
    t.(additionalScanColumns := [])
  }

  /** No view covers a triple of the operation that has additional columns. */
  ghost predicate ColumnsKept(views: set<View>, c: Context, ops: seq<Operation>, i: nat)
    requires i < |ops| && ops[i].BasicGraphPattern?
  {
    forall k: nat | k < |ops[i].triples| && ops[i].triples[k].additionalScanColumns != [] :: !IsCovered(views, c, ops, i, k)
  }

  // ---- Patterns of triples only -----------------------------------------------------------------------------

  /** Without property paths, the triples are collected as they are. */
  lemma {:induction false} CollectSimple(ts: seq<SparqlTriple>)
    requires forall t | t in ts :: !t.p.PropertyPath?
    ensures Collect(ts) == ts
  {
    if ts != [] {
      CollectSimple(ts[..|ts| - 1]);
    }
  }

  lemma CollectedAlone(ts: seq<SparqlTriple>, k: nat)
    requires k < |ts| && forall t | t in ts :: !t.p.PropertyPath?
    ensures var ops := [BasicGraphPattern(ts)];
            CollectAll(ops[0..1]) == ts && CollectAll(ops[0..0]) == [] && |Collect(ts[..k])| == k
  {
    var ops := [BasicGraphPattern(ts)];
    CollectSimple(ts);
    CollectSimple(ts[..k]);
    hide Collect;
    assert ops[0..1] == ops && ops[..0] == ops[0..0] == [];
    assert CollectAll(ops[..0]) == [];
  }

  lemma SegmentAlone(c: Context, ts: seq<SparqlTriple>, begin: nat, end: nat)
    ensures IsSegment(c, [BasicGraphPattern(ts)], 0, begin, end) <==> begin == 0 && end == 1
  {
    hide SharesBound;
  }

  /** Which triples are covered if the pattern consists of triples only. */
  lemma CoveredAloneIff(views: set<View>, c: Context, ts: seq<SparqlTriple>, k: nat)
    requires k < |ts| && forall t | t in ts :: !t.p.PropertyPath?
    ensures IsCovered(views, c, [BasicGraphPattern(ts)], 0, k) <==> IsReplaceable(views, ts, k)
  {
    var ops := [BasicGraphPattern(ts)];
    CollectedAlone(ts, k);
    hide IsReplaceable, Collect, CollectAll, IsSegment;
    SegmentAlone(c, ts, 0, 1);
    assert CoveredIn(views, ops, 0, k, 0, 1) <==> IsReplaceable(views, ts, k);
    if IsCovered(views, c, ops, 0, k) {
      var begin: nat, end: nat :| IsSegment(c, ops, 0, begin, end) && CoveredIn(views, ops, 0, k, begin, end);
      SegmentAlone(c, ts, begin, end);
    }
  }

  /** A star has another arm. */
  lemma OtherArm(views: set<View>, v: View, ts: seq<SparqlTriple>, s: Var, n: nat) returns (m: nat)
    requires ReplacesStar(views, v, ts, s, n)
    ensures m != n && m < |ts| && n < |ts| && IsArm(views, ts, s, n) && ReplacesStar(views, v, ts, s, m)
  {
    var p := GetSimplePredicate(ts[n].p).value;
    assert |v.arms - {p}| == |v.arms| - 1;
    var q :| q in v.arms - {p};
    m :| IsArm(views, ts, s, m) && GetSimplePredicate(ts[m].p) == Some(q);
  }

  /** A view replaces several triples together. */
  lemma ReplacesTogether(views: set<View>, ts: seq<SparqlTriple>, n: nat)
    ensures IsReplaceable(views, ts, n) ==> |ts| >= 2
  {
    if v, s: Var :| ReplacesStar(views, v, ts, s, n) {
      var m := OtherArm(views, v, ts, s, n);
    }
  }
}
