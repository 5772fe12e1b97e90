/**
 Queries for which the pattern trick goes wrong.
 */
module PatternTrickExamples {
  import opened Tables
  import opened Datasets
  import opened GraphPatterns
  import opened PatternFrames
  import opened PatternTrickMeaning
  import opened MaterializedViews
  import opened CheckUsePatternTrick
  import opened PatternTrick
  import opened GroupedAnswers
  import opened PatternTrickQuery

  const S := Variable("?s")
  const SPO := SparqlTriple(S, PredicateVariable("?p"), Variable("?o"), [])
  const COUNT_S := Some(CountedVariable("?s", true))
  const TUPLE := PatternTrickTuple("?s", "?p")

  lemma RunOne(d: Data, c: Context, op: Operation, m: Mapping, m': Mapping)
    ensures Run(d, c, [op], m, m') <==> Step(d, c, op, m, m')
  {
    hide Step;
    assert [op][..0] == [];
    if Run(d, c, [op], m, m') {
      var n := LastStep(d, c, [op], m, m');
    }
    if Step(d, c, op, m, m') {
      OneMoreStep(d, c, [op], m, m, m');
    }
  }

  lemma RunTwo(d: Data, c: Context, op: Operation, op': Operation, m: Mapping, n: Mapping, m': Mapping)
    ensures Step(d, c, op, m, n) && Step(d, c, op', n, m') ==> Run(d, c, [op, op'], m, m')
  {
    hide Step;
    assert [op, op'][..1] == [op];
    RunOne(d, c, op, m, n);
    if Step(d, c, op, m, n) && Step(d, c, op', n, m') {
      OneMoreStep(d, c, [op, op'], m, n, m');
    }
  }

  lemma RunTwoBack(d: Data, c: Context, op: Operation, op': Operation, m: Mapping, m': Mapping) returns (n: Mapping)
    requires Run(d, c, [op, op'], m, m')
    ensures Step(d, c, op, m, n) && Step(d, c, op', n, m')
  {
    hide Step;
    assert [op, op'][..1] == [op];
    n := LastStep(d, c, [op, op'], m, m');
    RunOne(d, c, op, m, n);
  }

  /** The solutions of a single triple. */
  lemma OneTriple(d: Data, c: Context, t: SparqlTriple, m: Mapping)
    ensures OwnSolution(d, c, BasicGraphPattern([t]), m) <==> m.Keys == TripleVars(c, t) && TripleHolds(d, c, t, m)
  {
    assert VarsOf(c, [t]) == TripleVars(c, t) by {
      assert t in [t];
    }
    AllHoldIff(d, c, [t], m);
  }

  lemma StepOfOwn(d: Data, c: Context, op: Operation, m: Mapping, n: Mapping)
    requires op.BasicGraphPattern? || op.GroupGraphPattern?
    ensures OwnSolution(d, c, op, n) && Compatible(m, n) ==> Step(d, c, op, m, m + n)
  {}

  lemma StepOfOwnBack(d: Data, c: Context, op: Operation, m: Mapping, m': Mapping) returns (n: Mapping)
    requires (op.BasicGraphPattern? || op.GroupGraphPattern?) && Step(d, c, op, m, m')
    ensures OwnSolution(d, c, op, n) && Compatible(m, n) && m' == m + n
  {
    n :| OwnSolution(d, c, op, n) && Compatible(m, n) && m' == m + n;
  }

  /** The solutions of a pattern of one triple. */
  lemma OneTriplePattern(d: Data, c: Context, t: SparqlTriple, m: Mapping)
    ensures IsSolution(d, c, GraphPattern([], [BasicGraphPattern([t])]), m)
       <==> m.Keys == TripleVars(c, t) && TripleHolds(d, c, t, m)
  {
    var op := BasicGraphPattern([t]);
    RunOne(d, c, op, map[], m);
    OneTriple(d, c, t, m);
    hide OwnSolution, Run;
    if Run(d, c, [op], map[], m) {
      var n := StepOfOwnBack(d, c, op, map[], m);
      assert map[] + n == n;
    }
    if OwnSolution(d, c, op, m) {
      StepOfOwn(d, c, op, map[], m);
      assert map[] + m == m;
    }
  }

  /** The base solutions of a query that is a single basic graph pattern. */
  lemma AloneBaseSubject(d: Data, c: Context, ts: seq<SparqlTriple>, s: Var, n: Mapping)
    requires Base(d, c, ts, s, n)
    ensures BaseSubject(d, c, Rest(Surroundings([], [], []), ts, s), n[s])
  {
    hide MatchesAll, VarsOf;
    assert map[] + n == n;
    assert Through(d, c, Surroundings([], [], []), map[], n, n);
    assert RestSolution(d, c, Rest(Surroundings([], [], []), ts, s), n);
  }

  // ---- A GRAPH variable -------------------------------------------------------------------------------

  /** `{ ?s ?p ?o . GRAPH ?p { ?x ?y ?z } }` */
  function GraphVariableQuery(): GraphPattern {
    GraphPattern([], [BasicGraphPattern([SPO]),
                      GroupGraphPattern(GraphPattern([], [BasicGraphPattern([XYZ])]), GraphVariable("?p", NAMED))])
  }

  const XYZ := SparqlTriple(Variable("?x"), PredicateVariable("?y"), Variable("?z"), [])

  function GraphVariableRewritten(): GraphPattern {
    GraphVariableQuery().(operations := [BasicGraphPattern([HasPatternTriple(TUPLE)]), GraphVariableQuery().operations[1]])
  }

  /** The predicate 12 of the triple in the default graph 19 is also a graph, which holds the other triple. */
  function GraphVariableData(): Data {
    Data({Quad(11, 12, 13, 19), Quad(14, 15, 16, 12)}, {Quad(11, 17, 0, 18), Quad(14, 17, 1, 18)}, 19, 18, 17,
         x => if x == 11 then 0 else if x == 14 then 1 else NO_PATTERN, [[12], [15]])
  }

  lemma GraphVariableFound()
    ensures var root, after := GraphVariableQuery(), GraphVariableRewritten();
            RewrittenAt(root, 0, 0, "?p", COUNT_S, TUPLE, after)
  {
    var root, after := GraphVariableQuery(), GraphVariableRewritten();
    var inner := root.operations[1].child;
    assert IsPosition(root, 0, 0) && root.operations[0].triples[0] == SPO;
    forall v | v in {"?p", "?o"}
      ensures !IsVariableContainedInGraphPattern(v, root, Some((0, 0)))
    {
      assert !IsVariableContainedInTriple(v, XYZ);
      assert !IsVariableContainedInOperation(v, inner.operations[0], None);
      assert !IsVariableContainedInGraphPattern(v, inner, None);
      assert !IsVariableContainedInOperation(v, root.operations[1], None);
      assert !IsVariableContainedInOperation(v, root.operations[0], Some(0));
    }
    assert PatternTrickDataIfTripleIsPossible(SPO) == Some(PatternTrickData("?p", "?s", {"?p", "?o"}, true));
    assert SuitableAt(root, 0, 0, "?p", COUNT_S) == Some(TUPLE);
    var rest := Without(root.operations[0].triples, 0);
    assert rest == [] && after.operations[0].triples == rest + [HasPatternTriple(TUPLE)];
    assert after.operations == root.operations[0 := after.operations[0]];
  }

  lemma GraphVariableConflicts()
    ensures WellFormed(GraphVariableQuery()) && IsPosition(GraphVariableQuery(), 0, 0)
    ensures !NoGraphVariable(GraphVariableQuery(), 0, 0)
  {
    var root := GraphVariableQuery();
    var inner := root.operations[1].child;
    assert WellFormedOperation(inner.operations[0]);
    assert WellFormed(inner);
    assert WellFormedOperation(root.operations[0]) && WellFormedOperation(root.operations[1]);
    assert IsGraphVariableInOperation("?p", root.operations[1]);
    assert IsGraphVariableInGraphPattern("?p", root);
    assert "?p" in Others(root.operations[0].triples[0]);
  }

  lemma GraphVariablePatterns()
    ensures PatternsBuilt(GraphVariableData())
  {
    var d := GraphVariableData();
    assert Quad(11, 12, 13, 19) in d.quads && Quad(14, 15, 16, 12) in d.quads;
  }

  /** The context inside the GRAPH clause. */
  function Inside(): Context {
    ContextIn(GraphVariable("?p", NAMED), TopLevel(UNCONSTRAINED))
  }

  /** The solutions of the GRAPH clause bind its variable to a named graph. */
  lemma GraphClause(m: Mapping)
    ensures OwnSolution(GraphVariableData(), TopLevel(UNCONSTRAINED), GraphVariableQuery().operations[1], m)
       <==> m == SECOND
  {
    var d, c := GraphVariableData(), Inside();
    OneTriplePattern(d, c, XYZ, m);
    assert ColumnVars(XYZ) == {} && TripleVars(c, XYZ) == {"?x", "?y", "?z", "?p"};
    if m.Keys == TripleVars(c, XYZ) {
      InNamedGraph(m);
    }
  }

  lemma InNamedGraph(m: Mapping)
    requires m.Keys == {"?x", "?y", "?z", "?p"}
    ensures Triple(m["?x"], m["?y"], m["?z"]) in Scanned(GraphVariableData(), Inside(), GraphVariableData().quads, m)
       <==> m["?x"] == 14 && m["?y"] == 15 && m["?z"] == 16 && m["?p"] == 12
  {
    var d := GraphVariableData();
    var q := Quad(14, 15, 16, 12);
    assert q in d.quads;
    if m["?p"] == 12 {
      assert Triple(q.s, q.p, q.o) in Scanned(d, Inside(), d.quads, m);
    }
  }

  lemma FirstTriple()
    ensures OwnSolution(GraphVariableData(), TopLevel(UNCONSTRAINED), BasicGraphPattern([SPO]), FIRST)
  {
    var d, c, n := GraphVariableData(), TopLevel(UNCONSTRAINED), FIRST;
    var q := Quad(11, 12, 13, 19);
    assert q in d.quads && Triple(q.s, q.p, q.o) in Scanned(d, c, d.quads, n);
    assert ColumnVars(SPO) == {} && TripleVars(c, SPO) == {"?s", "?p", "?o"};
    OneTriple(d, c, SPO, n);
  }

  /** Two operations with compatible solutions of their own. */
  lemma TwoOperations(d: Data, c: Context, op: Operation, op': Operation, n: Mapping, n': Mapping)
    requires (op.BasicGraphPattern? || op.GroupGraphPattern?) && (op'.BasicGraphPattern? || op'.GroupGraphPattern?)
    requires OwnSolution(d, c, op, n) && OwnSolution(d, c, op', n') && Compatible(n, n')
    ensures IsSolution(d, c, GraphPattern([], [op, op']), n + n')
  {
    hide OwnSolution, Run, Step;
    StepOfOwn(d, c, op, map[], n);
    assert map[] + n == n;
    StepOfOwn(d, c, op', n, n');
    RunTwo(d, c, op, op', map[], n, n + n');
  }

  lemma TwoOperationsBack(d: Data, c: Context, op: Operation, op': Operation, m: Mapping) returns (n: Mapping, n': Mapping)
    requires (op.BasicGraphPattern? || op.GroupGraphPattern?) && (op'.BasicGraphPattern? || op'.GroupGraphPattern?)
    requires IsSolution(d, c, GraphPattern([], [op, op']), m)
    ensures OwnSolution(d, c, op, n) && OwnSolution(d, c, op', n') && Compatible(n, n')
  {
    hide OwnSolution, Run, Step;
    var k := RunTwoBack(d, c, op, op', map[], m);
    n := StepOfOwnBack(d, c, op, map[], k);
    assert map[] + n == n;
    n' := StepOfOwnBack(d, c, op', k, m);
  }

  const FIRST: Mapping := map["?s" := 11, "?p" := 12, "?o" := 13]
  const SECOND: Mapping := map["?x" := 14, "?y" := 15, "?z" := 16, "?p" := 12]

  lemma BothAgree()
    ensures Compatible(FIRST, SECOND) && BindsBoth(TUPLE, FIRST + SECOND, 11, 12)
  {}

  lemma GraphVariableHasGroup()
    ensures Pairs(GraphVariableData(), TopLevel(UNCONSTRAINED), GraphVariableQuery(), TUPLE, 11, 12)
  {
    var d, c, root := GraphVariableData(), TopLevel(UNCONSTRAINED), GraphVariableQuery();
    FirstTriple();
    GraphClause(SECOND);
    BothAgree();
    assert root == GraphPattern([], [root.operations[0], root.operations[1]]);
    hide OwnSolution, IsSolution, GraphVariableData, BindsBoth, Compatible;
    TwoOperations(d, c, root.operations[0], root.operations[1], FIRST, SECOND);
  }

  /** The triple that delivers the patterns binds the predicate variable to one of the two patterns. */
  lemma PatternsOnly(n: Mapping)
    requires OwnSolution(GraphVariableData(), TopLevel(UNCONSTRAINED), BasicGraphPattern([HasPatternTriple(TUPLE)]), n)
    ensures "?p" in n && n["?p"] < 2
  {
    var d, c := GraphVariableData(), TopLevel(UNCONSTRAINED);
    OneTriple(d, c, HasPatternTriple(TUPLE), n);
    GraphVariablePatterns();
    HasPatternHolds(d, c, TUPLE, n);
  }

  lemma GraphVariableNoSolution(m: Mapping)
    ensures !IsSolution(GraphVariableData(), TopLevel(UNCONSTRAINED), GraphVariableRewritten(), m)
  {
    var d, c, after := GraphVariableData(), TopLevel(UNCONSTRAINED), GraphVariableRewritten();
    if IsSolution(d, c, after, m) {
      hide OwnSolution, GraphVariableData;
      var n, n' := TwoOperationsBack(d, c, after.operations[0], after.operations[1], m);
      PatternsOnly(n);
      GraphClause(n');
      assert false;
    }
  }

  /** The query has the group 12 with the subject 11. The check does not see the variable of the GRAPH clause, and
      the rewritten query, which joins patterns with graphs, has no solution. */
  lemma GraphVariableExample()
    ensures var d, root, after, c := GraphVariableData(), GraphVariableQuery(), GraphVariableRewritten(), TopLevel(UNCONSTRAINED);
            && WellFormed(root) && PatternsBuilt(d)
            && RewrittenAt(root, 0, 0, "?p", COUNT_S, TUPLE, after) && !NoGraphVariable(root, 0, 0)
            && Pairs(d, c, root, TUPLE, 11, 12)
            && forall m :: !IsSolution(d, c, after, m)
  {
    hide IsSolution, Pairs, WellFormed, PatternsBuilt, RewrittenAt, NoGraphVariable, GraphVariableQuery, GraphVariableData,
         GraphVariableRewritten;
    GraphVariableConflicts();
    GraphVariablePatterns();
    GraphVariableFound();
    GraphVariableHasGroup();
    forall m {
      GraphVariableNoSolution(m);
    }
  }

  // ---- ql:has-predicate -------------------------------------------------------------------------------

  const HAS_Q := SparqlTriple(S, HasPredicate, Constant(5, false), [])

  /** `{ ?s ql:has-predicate <q> . ?s ?p ?o }` */
  function HasPredicateQuery(): GraphPattern {
    GraphPattern([], [BasicGraphPattern([HAS_Q, SPO])])
  }

  function HasPredicateRewritten(): GraphPattern {
    GraphPattern([], [BasicGraphPattern([WithColumn(HAS_Q, SubjectPattern, "?p")])])
  }

  /** The second of two triples of a query is the first suitable one. */
  lemma SecondTripleFound(t: SparqlTriple)
    requires t == HAS_Q || t == FIXED
    ensures var root := GraphPattern([], [BasicGraphPattern([t, SPO])]);
            var after := GraphPattern([], [BasicGraphPattern([WithColumn(t, SubjectPattern, "?p")])]);
            && WellFormed(root) && RewrittenAt(root, 0, 1, "?p", COUNT_S, TUPLE, after) && NoGraphVariable(root, 0, 1)
            && IsChosen([t], "?s", 0, SubjectPattern) && Without(root.operations[0].triples, 1) == [t]
  {
    var root := GraphPattern([], [BasicGraphPattern([t, SPO])]);
    var after := GraphPattern([], [BasicGraphPattern([WithColumn(t, SubjectPattern, "?p")])]);
    assert WellFormedOperation(root.operations[0]);
    assert IsPosition(root, 0, 1) && root.operations[0].triples[1] == SPO;
    forall v | v in {"?p", "?o"}
      ensures !IsVariableContainedInGraphPattern(v, root, Some((0, 1))) && !IsGraphVariableInGraphPattern(v, root)
    {
      assert !IsVariableContainedInTriple(v, t);
      assert !IsVariableContainedInOperation(v, root.operations[0], Some(1));
    }
    assert PatternTrickDataIfTripleIsPossible(SPO) == Some(PatternTrickData("?p", "?s", {"?p", "?o"}, true));
    assert PatternTrickDataIfTripleIsPossible(t) == None;
    assert Without(root.operations[0].triples, 1) == [t];
    assert IsChosen([t], "?s", 0, SubjectPattern);
    assert after.operations[0].triples == [t][0 := WithColumn(t, SubjectPattern, "?p")];
    assert after.operations == root.operations[0 := after.operations[0]];
  }

  /** The rewriting adds the column to a scan that has no such column: the result of the rewritten query has no
      column for the predicate variable, whatever the dataset. */
  lemma HasPredicateExample(dataset: DatasetClauses)
    ensures var root, after := HasPredicateQuery(), HasPredicateRewritten();
            && WellFormed(root) && RewrittenAt(root, 0, 1, "?p", COUNT_S, TUPLE, after) && NoGraphVariable(root, 0, 1)
            && !Available(root, 0, 1, TUPLE)
            && !HasColumn("?p", TopLevel(dataset), after)
  {
    SecondTripleFound(HAS_Q);
    var us := HasPredicateRewritten().operations[0].triples;
    assert KindOf(us[0]) == HasPredicateScan;
    assert !PatternAvailable([HAS_Q], "?s") by {
      assert IsChosen([HAS_Q], "?s", 0, SubjectPattern) && KindOf([HAS_Q][0]) != OrdinaryScan;
    }
    assert "?p" !in VarsOf(TopLevel(dataset), us);
    assert !OperationHasColumn("?p", TopLevel(dataset), HasPredicateRewritten().operations[0]);
  }

  // ---- Materialized views -----------------------------------------------------------------------------

  const FIRST_ARM := SparqlTriple(S, SimpleIri(31), Variable("?x"), [])

  function Second(v: Var): SparqlTriple {
    SparqlTriple(Variable(v), SimpleIri(32), Variable("?y"), [])
  }

  /** `{ ?s <p> ?x . ?s <q> ?y . ?s ?p ?o }` or `{ ?s <p> ?x . ?x <q> ?y . ?s ?p ?o }` */
  function ViewQuery(v: Var): GraphPattern {
    GraphPattern([], [BasicGraphPattern([FIRST_ARM, Second(v), SPO])])
  }

  function ViewRewritten(v: Var): GraphPattern {
    GraphPattern([], [BasicGraphPattern([WithColumn(FIRST_ARM, SubjectPattern, "?p"), Second(v)])])
  }

  /** The query when its first two triples are a scan of a view. */
  function ViewPlan(v: Var): GraphPattern {
    GraphPattern([], [BasicGraphPattern([FIRST_ARM, Second(v)])])
  }

  function ViewData(): Data {
    Data({Quad(11, 31, 33, 19), Quad(11, 32, 34, 19), Quad(33, 32, 34, 19)}, {Quad(11, 17, 0, 18), Quad(33, 17, 1, 18)},
         19, 18, 17, x => if x == 11 then 0 else if x == 33 then 1 else NO_PATTERN, [[31, 32], [32]])
  }

  /** The view is the star of the two predicates, or their chain. */
  predicate HasView(views: set<View>, v: Var) {
    || (v == "?s" && Star({Named(31), Named(32)}) in views)
    || (v == "?x" && (Chain(Named(31), Named(32), true) in views || Chain(Named(31), Named(32), false) in views))
  }

  lemma ViewQueryIsolated(v: Var, v': Var)
    requires (v == "?s" || v == "?x") && (v' == "?p" || v' == "?o")
    ensures !IsVariableContainedInGraphPattern(v', ViewQuery(v), Some((0, 2)))
    ensures !IsGraphVariableInGraphPattern(v', ViewQuery(v))
  {
    var root := ViewQuery(v);
    assert !IsVariableContainedInTriple(v', FIRST_ARM) && !IsVariableContainedInTriple(v', Second(v));
    assert !IsVariableContainedInOperation(v', root.operations[0], Some(2));
  }

  lemma ViewQueryRewritten(v: Var)
    requires v == "?s" || v == "?x"
    ensures var root, rest := ViewQuery(v), [FIRST_ARM, Second(v)];
            && IsPosition(root, 0, 2) && Without(root.operations[0].triples, 2) == rest
            && RewrittenPattern(root, 0, 2, TUPLE, ViewRewritten(v)) && PatternAvailable(rest, "?s")
  {
    var root, after, rest := ViewQuery(v), ViewRewritten(v), [FIRST_ARM, Second(v)];
    assert Without(root.operations[0].triples, 2) == rest;
    assert IsChosen(rest, "?s", 0, SubjectPattern);
    assert after.operations[0].triples == rest[0 := WithColumn(FIRST_ARM, SubjectPattern, "?p")];
    assert after.operations == root.operations[0 := after.operations[0]];
    OnlyChosen(TUPLE, rest, 0, SubjectPattern);
  }

  lemma ThirdTripleFound(v: Var)
    requires v == "?s" || v == "?x"
    ensures var root, after := ViewQuery(v), ViewRewritten(v);
            && WellFormed(root) && RewrittenAt(root, 0, 2, "?p", COUNT_S, TUPLE, after) && NoGraphVariable(root, 0, 2)
            && Available(root, 0, 2, TUPLE)
  {
    var root := ViewQuery(v);
    assert WellFormedOperation(root.operations[0]);
    ViewQueryRewritten(v);
    hide RewrittenPattern, PatternAvailable, IsVariableContainedInGraphPattern, IsGraphVariableInGraphPattern;
    assert root.operations[0].triples[2] == SPO;
    ViewQueryIsolated(v, "?p");
    ViewQueryIsolated(v, "?o");
    assert PatternTrickDataIfTripleIsPossible(SPO) == Some(PatternTrickData("?p", "?s", {"?p", "?o"}, true));
    assert PatternTrickDataIfTripleIsPossible(FIRST_ARM) == PatternTrickDataIfTripleIsPossible(Second(v)) == None;
  }

  /** The view covers the triple that delivers the pattern. */
  lemma ViewCovers(views: set<View>, c: Context, v: Var)
    requires HasView(views, v)
    ensures IsCovered(views, c, ViewRewritten(v).operations, 0, 0)
  {
    var ts := ViewRewritten(v).operations[0].triples;
    assert forall t | t in ts :: !t.p.PropertyPath?;
    forall n: nat | n < 2
      ensures GetSimplePredicate(ts[n].p) == Some(Named(31 + n)) && KnownPredicate(views, ts[n])
    {
      var view := if v == "?s" then Star({Named(31), Named(32)}) else
                  if Chain(Named(31), Named(32), true) in views then Chain(Named(31), Named(32), true) else
                  Chain(Named(31), Named(32), false);
      assert view in views && Named(31 + n) in ViewPredicates(view);
    }
    if v == "?s" {
      assert forall n: nat | n < 2 :: HasOwnObject(views, ts, "?s", n);
      assert IsArm(views, ts, "?s", 0) && IsArm(views, ts, "?s", 1);
      assert ReplacesStar(views, Star({Named(31), Named(32)}), ts, "?s", 0);
    } else {
      assert ReplacesChain(views, Chain(Named(31), Named(32), true), ts, 0, 1)
             || ReplacesChain(views, Chain(Named(31), Named(32), false), ts, 0, 1);
    }
    CoveredAloneIff(views, c, ts, 0);
  }

  lemma ViewPatterns()
    ensures PatternsBuilt(ViewData())
  {
    var d := ViewData();
    assert Quad(11, 31, 33, 19) in d.quads && Quad(11, 32, 34, 19) in d.quads && Quad(33, 32, 34, 19) in d.quads;
  }

  lemma ViewScans(v: Var, n: Mapping)
    requires (v == "?s" || v == "?x") && n == map["?s" := 11, "?x" := 33, "?y" := 34]
    ensures TripleHolds(ViewData(), TopLevel(UNCONSTRAINED), FIRST_ARM, n)
    ensures TripleHolds(ViewData(), TopLevel(UNCONSTRAINED), Second(v), n)
    ensures VarsOf(TopLevel(UNCONSTRAINED), [FIRST_ARM, Second(v)]) == n.Keys
  {
    var d, c := ViewData(), TopLevel(UNCONSTRAINED);
    var q, q' := Quad(11, 31, 33, 19), Quad(n[v], 32, 34, 19);
    assert q in d.quads && Triple(q.s, q.p, q.o) in Scanned(d, c, d.quads, n);
    assert q' in d.quads && Triple(q'.s, q'.p, q'.o) in Scanned(d, c, d.quads, n);
    assert ColumnVars(FIRST_ARM) == ColumnVars(Second(v)) == {};
    assert TripleVars(c, FIRST_ARM) == {"?s", "?x"} && TripleVars(c, Second(v)) == {v, "?y"};
    hide TripleVars, ColumnVars;
    assert FIRST_ARM in [FIRST_ARM, Second(v)] && Second(v) in [FIRST_ARM, Second(v)];
  }

  lemma ViewHasTriple()
    ensures HasTriple(ViewData(), TopLevel(UNCONSTRAINED), 11, 31)
  {
    assert Quad(11, 31, 33, 19) in ViewData().quads;
    QuadIsTriple(ViewData(), 11, 31);
  }

  lemma ViewBaseSubject(v: Var)
    requires v == "?s" || v == "?x"
    ensures BaseSubject(ViewData(), TopLevel(UNCONSTRAINED), Rest(Surroundings([], [], []), [FIRST_ARM, Second(v)], "?s"), 11)
  {
    var d, c, n := ViewData(), TopLevel(UNCONSTRAINED), map["?s" := 11, "?x" := 33, "?y" := 34];
    var ts := [FIRST_ARM, Second(v)];
    ViewScans(v, n);
    AllHoldIff(d, c, ts, n);
    hide TripleHolds, VarsOf, ViewData, HasTriple, Second, MatchesAll, BaseSubject;
    AloneBaseSubject(d, c, ts, "?s", n);
  }

  lemma ViewHasGroup(v: Var)
    requires v == "?s" || v == "?x"
    ensures Pairs(ViewData(), TopLevel(UNCONSTRAINED), ViewQuery(v), TUPLE, 11, 31)
  {
    var d, c, root := ViewData(), TopLevel(UNCONSTRAINED), ViewQuery(v);
    ThirdTripleFound(v);
    ViewQueryRewritten(v);
    SuitableIsTrickTriple(root, 0, 2, "?p", COUNT_S);
    ViewBaseSubject(v);
    ViewHasTriple();
    assert RestOf(root, 0, 2, "?s") == Rest(Surroundings([], [], []), [FIRST_ARM, Second(v)], "?s");
    hide IsTrickTriple, Pairs, BaseSubject, ViewData;
    OriginalPairs(d, c, root, 0, 2, TUPLE, 11, 31);
  }

  /** The query has the group 31 with the subject 11, and the scan that gets the column can deliver it. But as the
      first two triples are the star or the chain of a view, the planner may scan the view instead, and then the
      result has no column for the predicate variable. */
  lemma MaterializedViewExample(views: set<View>, v: Var)
    requires HasView(views, v)
    ensures var d, c, root, after := ViewData(), TopLevel(UNCONSTRAINED), ViewQuery(v), ViewRewritten(v);
            && WellFormed(root) && PatternsBuilt(d) && RewrittenAt(root, 0, 2, "?p", COUNT_S, TUPLE, after)
            && NoGraphVariable(root, 0, 2) && Available(root, 0, 2, TUPLE) && Pairs(d, c, root, TUPLE, 11, 31)
            && MayPlan(views, c, after, ViewPlan(v)) && !HasColumn("?p", c, ViewPlan(v))
  {
    var c, root, after := TopLevel(UNCONSTRAINED), ViewQuery(v), ViewRewritten(v);
    ThirdTripleFound(v);
    ViewQueryRewritten(v);
    ViewPatterns();
    ViewHasGroup(v);
    ViewCovers(views, c, v);
    SuitableIsTrickTriple(root, 0, 2, "?p", COUNT_S);
    assert Erased(root, 0, 2) == ViewPlan(v);
    hide IsTrickTriple, Pairs, ViewData, Available, PatternsBuilt, WellFormed, IsCovered, HasColumn;
    assert !ColumnsKept(views, c, after.operations, 0);
    MayPlanRewrittenIff(views, c, root, 0, 2, TUPLE, after, ViewPlan(v));
    HasColumnAsIsIff(ViewData(), c, root, 0, 2, TUPLE, after);
  }

  /** `{ ?s <p> ?x . BIND (.. AS ?b) . ?s <q> ?y }`, where the first triple has the column. */
  function BoundQuery(expression: Mapping -> Option<Id>): GraphPattern {
    GraphPattern([], [BasicGraphPattern([WithColumn(FIRST_ARM, SubjectPattern, "?p")]), Bind("?b", {}, expression),
                      BasicGraphPattern([Second("?s")])])
  }

  /** What is before a BIND is planned without what follows, so that no view covers the two triples together. */
  lemma BindExample(views: set<View>, c: Context, expression: Mapping -> Option<Id>)
    ensures !IsCovered(views, c, BoundQuery(expression).operations, 0, 0)
  {
    var ops := BoundQuery(expression).operations;
    var t := ops[0].triples[0];
    forall begin: nat, end: nat | IsSegment(c, ops, 0, begin, end)
      ensures begin == 0 && end == 1
    {
      assert IsBarrier(c, ops, 1);
    }
    CollectedAlone([t], 0);
    assert ops[0..1] == [BasicGraphPattern([t])] && ops[0..0] == [];
    ReplacesTogether(views, [t], |CollectAll(ops[0..0])| + |Collect(ops[0].triples[..0])|);
    hide IsReplaceable, IsSegment, CollectAll, Collect;
  }

  // ---- CONSTRUCT --------------------------------------------------------------------------------------

  /** The query part of `CONSTRUCT { ?p <q> <r> } WHERE { ?s ?p ?o } GROUP BY ?p` */
  function ConstructQuery(): GraphPattern {
    GraphPattern([], [BasicGraphPattern([SPO])])
  }

  function ConstructRewritten(): GraphPattern {
    GraphPattern([], [BasicGraphPattern([HasPatternTriple(TUPLE)])])
  }

  lemma ConstructFound()
    ensures var root, after := ConstructQuery(), ConstructRewritten();
            && WellFormed(root) && RewrittenAt(root, 0, 0, "?p", None, TUPLE, after) && NoGraphVariable(root, 0, 0)
            && Available(root, 0, 0, TUPLE)
  {
    var root, after := ConstructQuery(), ConstructRewritten();
    assert WellFormedOperation(root.operations[0]);
    assert IsPosition(root, 0, 0) && root.operations[0].triples[0] == SPO;
    forall v | v in {"?p", "?o"}
      ensures !IsVariableContainedInGraphPattern(v, root, Some((0, 0))) && !IsGraphVariableInGraphPattern(v, root)
    {
      assert !IsVariableContainedInOperation(v, root.operations[0], Some(0));
    }
    assert PatternTrickDataIfTripleIsPossible(SPO) == Some(PatternTrickData("?p", "?s", {"?p", "?o"}, true));
    assert Without(root.operations[0].triples, 0) == [];
    assert after.operations[0].triples == [] + [HasPatternTriple(TUPLE)];
    assert after.operations == root.operations[0 := after.operations[0]];
  }

  /** The triple is suitable whatever the kind of the query, and the column is there whatever the plan. A SELECT
      query gets groups, a CONSTRUCT query an exception. */
  lemma ConstructExample(views: set<View>, d: Data, dataset: DatasetClauses)
    ensures var c, root, after := TopLevel(dataset), ConstructQuery(), ConstructRewritten();
            && WellFormed(root) && RewrittenAt(root, 0, 0, "?p", None, TUPLE, after) && NoGraphVariable(root, 0, 0)
            && (forall planned, answer | AnsweredAt(views, d, c, root, 0, 0, ["?p"], [], true, TUPLE, after, planned, answer) ::
                  answer.Groups?)
            && (forall planned, answer | AnsweredAt(views, d, c, root, 0, 0, ["?p"], [], false, TUPLE, after, planned, answer) ::
                  answer.Failed?)
  {
    var c, root, after := TopLevel(dataset), ConstructQuery(), ConstructRewritten();
    ConstructFound();
    assert ColumnsKept(views, c, after.operations, 0);
    NeverFailsIff(views, d, c, root, 0, 0, ["?p"], [], TUPLE, after);
    hide RewrittenPattern, Available, NoGraphVariable, WellFormed, MayPlan, IsAnswer, ColumnsKept;
  }

  // ---- FROM -------------------------------------------------------------------------------------------

  const FIXED := SparqlTriple(S, SimpleIri(22), Variable("?z"), [])

  /** `{ ?s <p> ?z . ?s ?p ?o }` */
  function FromQuery(): GraphPattern {
    GraphPattern([], [BasicGraphPattern([FIXED, SPO])])
  }

  function FromRewritten(): GraphPattern {
    GraphPattern([], [BasicGraphPattern([WithColumn(FIXED, SubjectPattern, "?p")])])
  }

  /** The subject 21 has the predicate 22 in the graph 28, and the predicate 25 in the graph 29. */
  function FromData(): Data {
    Data({Quad(21, 22, 23, 28), Quad(21, 25, 26, 29)}, {Quad(21, 17, 0, 18)}, 19, 18, 17,
         x => if x == 21 then 0 else NO_PATTERN, [[22, 25]])
  }

  function FromDataset(): DatasetClauses {
    DatasetClauses(Some({28}), None)
  }

  lemma FromPatterns()
    ensures PatternsBuilt(FromData()) && HasQuad(FromData(), 21, 25)
  {
    var d := FromData();
    assert Quad(21, 22, 23, 28) in d.quads && Quad(21, 25, 26, 29) in d.quads;
    assert Lists(d, 0, 25);
  }

  lemma FromNotActive()
    ensures !HasTriple(FromData(), TopLevel(FromDataset()), 21, 25)
  {}

  /** The fixed triple is found in the graph of the FROM clause. */
  lemma FromBaseSubject()
    ensures BaseSubject(FromData(), TopLevel(FromDataset()), Rest(Surroundings([], [], []), [FIXED], "?s"), 21)
  {
    var d, c, n := FromData(), TopLevel(FromDataset()), map["?s" := 21, "?z" := 23];
    var q := Quad(21, 22, 23, 28);
    assert q in d.quads && Triple(q.s, q.p, q.o) in Scanned(d, c, d.quads, n);
    assert ColumnVars(FIXED) == {} && TripleVars(c, FIXED) == {"?s", "?z"};
    OneTriple(d, c, FIXED, n);
    AloneBaseSubject(d, c, [FIXED], "?s", n);
  }

  lemma FromFound()
    ensures var root, after := FromQuery(), FromRewritten();
            && WellFormed(root) && RewrittenAt(root, 0, 1, "?p", COUNT_S, TUPLE, after) && NoGraphVariable(root, 0, 1)
            && IsTrickTriple(root, 0, 1, TUPLE) && Available(root, 0, 1, TUPLE) && !Own(root, 0, 1, TUPLE)
            && RestOf(root, 0, 1, "?s") == Rest(Surroundings([], [], []), [FIXED], "?s")
  {
    SecondTripleFound(FIXED);
    SuitableIsTrickTriple(FromQuery(), 0, 1, "?p", COUNT_S);
    OnlyChosen(TUPLE, [FIXED], 0, SubjectPattern);
    ChosenIsUnique(TUPLE, [FIXED], 0, SubjectPattern, 0, SubjectPattern);
  }

  /** With FROM, the trick counts the subject for a predicate that it has only in other graphs. */
  lemma FromExample()
    ensures var d, c, root, after := FromData(), TopLevel(FromDataset()), FromQuery(), FromRewritten();
            && WellFormed(root) && PatternsBuilt(d) && RewrittenAt(root, 0, 1, "?p", COUNT_S, TUPLE, after)
            && NoGraphVariable(root, 0, 1) && Available(root, 0, 1, TUPLE)
            && PairsByTrick(d, c, after, TUPLE, 21, 25) && !Pairs(d, c, root, TUPLE, 21, 25)
  {
    var d, c, root, after := FromData(), TopLevel(FromDataset()), FromQuery(), FromRewritten();
    assert root.operations[0].triples[1] == SPO && IsPosition(root, 0, 1);
    FromFound();
    FromPatterns();
    FromNotActive();
    FromBaseSubject();
    assert RewrittenPattern(root, 0, 1, TUPLE, after);
    hide IsTrickTriple, RewrittenPattern, Pairs, PairsByTrick, BaseSubject, Own, Available, StoredPatternsActive, HasQuad,
         HasTriple, PatternsBuilt, Lists, WellFormed, FromData, RewrittenAt, NoGraphVariable, RestOf;
    TrickPairs(d, c, root, 0, 1, TUPLE, after, 21, 25);
    OriginalPairs(d, c, root, 0, 1, TUPLE, 21, 25);
  }
}
