/**
 A graph pattern neither reads nor binds variables that do not occur in it; and where variables occur
 that the check for their occurrence does not see.
 */
module PatternFrames {
  import opened Tables
  import opened Datasets
  import opened GraphPatterns

  /** The state before the last operation. */
  lemma LastStep(d: Data, c: Context, ops: seq<Operation>, m: Mapping, m': Mapping) returns (n: Mapping)
    requires ops != [] && Run(d, c, ops, m, m')
    ensures Run(d, c, ops[..|ops| - 1], m, n) && Step(d, c, ops[|ops| - 1], n, m')
  {
    n :| Run(d, c, ops[..|ops| - 1], m, n) && Step(d, c, ops[|ops| - 1], n, m');
  }

  lemma OneMoreStep(d: Data, c: Context, ops: seq<Operation>, m: Mapping, n: Mapping, m': Mapping)
    requires ops != [] && Run(d, c, ops[..|ops| - 1], m, n) && Step(d, c, ops[|ops| - 1], n, m')
    ensures Run(d, c, ops, m, m')
  {}

  /** None of the variables occurs in the operation. */
  ghost predicate Absent(vars: set<Var>, op: Operation) {
    OperationVars(op) !! vars
  }

  ghost predicate AbsentFromAll(vars: set<Var>, ops: seq<Operation>) {
    forall i | 0 <= i < |ops| :: Absent(vars, ops[i])
  }

  ghost predicate AbsentFromFilters(vars: set<Var>, filters: seq<Filter>) {
    forall i, v | 0 <= i < |filters| && v in vars :: v !in filters[i].vars
  }

  ghost predicate AllWellFormed(ops: seq<Operation>) {
    forall i | 0 <= i < |ops| :: WellFormedOperation(ops[i])
  }

  ghost predicate FiltersWellFormed(filters: seq<Filter>) {
    forall i | 0 <= i < |filters| :: FilterDependsOn(filters[i])
  }

  lemma AbsentInside(vars: set<Var>, p: GraphPattern)
    requires WellFormed(p) && PatternVars(p) !! vars
    ensures AbsentFromAll(vars, p.operations) && AbsentFromFilters(vars, p.filters)
    ensures AllWellFormed(p.operations) && FiltersWellFormed(p.filters)
  {
    forall i: nat, v | i < |p.operations| && v in OperationVars(p.operations[i])
      ensures v !in vars
    {
      assert v in PatternVars(p);
    }
    forall i: nat, v | i < |p.filters| && v in p.filters[i].vars
      ensures v !in vars
    {
      assert v in PatternVars(p);
    }
    forall i: nat | i < |p.operations|
      ensures WellFormedOperation(p.operations[i])
    {
      assert p.operations[i] in p.operations;
    }
    forall i: nat | i < |p.filters|
      ensures FilterDependsOn(p.filters[i])
    {
      assert p.filters[i] in p.filters;
    }
  }

  // ---- What the check sees ----------------------------------------------------------------------------

  /** A variable that occurs in an operation is reported by the check or is the variable of a GRAPH clause. */
  lemma {:induction false} OccurrenceIsSeen(v: Var, op: Operation)
    requires WellFormedOperation(op) && v in OperationVars(op)
    ensures IsVariableContainedInOperation(v, op, None) || IsGraphVariableInOperation(v, op)
    decreases op, 1
  {
    match op
    case BasicGraphPattern(triples) =>
      var t :| t in triples && v in AllTripleVars(t);
      var i: nat :| i < |triples| && triples[i] == t;
      assert IsVariableContainedInTriple(v, triples[i]);
    case Optional(child) => OccurrenceInPatternIsSeen(v, child);
    case GroupGraphPattern(child, spec) =>
      if v in PatternVars(child) {
        OccurrenceInPatternIsSeen(v, child);
      }
    case Minus(child) => OccurrenceInPatternIsSeen(v, child);
    case Union(child1, child2) =>
      if v in PatternVars(child1) {
        OccurrenceInPatternIsSeen(v, child1);
      } else {
        OccurrenceInPatternIsSeen(v, child2);
      }
    case _ =>
  }

  lemma {:induction false} OccurrenceInPatternIsSeen(v: Var, p: GraphPattern)
    requires WellFormed(p) && v in PatternVars(p)
    ensures IsVariableContainedInGraphPattern(v, p, None) || IsGraphVariableInGraphPattern(v, p)
    decreases p
  {
    if i: nat :| i < |p.operations| && v in OperationVars(p.operations[i]) {
      assert p.operations[i] in p.operations;
      OccurrenceIsSeen(v, p.operations[i]);
    }
  }

  /** The services that the check takes to contain every variable. */
  ghost predicate HasMagicServiceInOperation(op: Operation)
    decreases op, 1
  {
    match op
    case Optional(child) => HasMagicService(child)
    case GroupGraphPattern(child, _) => HasMagicService(child)
    case Minus(child) => HasMagicService(child)
    case Union(child1, child2) => HasMagicService(child1) || HasMagicService(child2)
    case MagicService(_, _) => true
    case _ => false
  }

  ghost predicate HasMagicService(p: GraphPattern)
    decreases p
  {
    exists i: nat | i < |p.operations| :: HasMagicServiceInOperation(p.operations[i])
  }

  /** Conversely, what the check reports does occur, unless there is such a service. */
  lemma {:induction false} SeenOccurs(v: Var, op: Operation)
    requires IsVariableContainedInOperation(v, op, None)
    ensures v in OperationVars(op) || HasMagicServiceInOperation(op)
    decreases op, 1
  {
    match op
    case BasicGraphPattern(triples) =>
      var i: nat :| i < |triples| && IsVariableContainedInTriple(v, triples[i]);
      assert triples[i] in triples && v in AllTripleVars(triples[i]);
    case Optional(child) => SeenOccursInPattern(v, child);
    case GroupGraphPattern(child, spec) => SeenOccursInPattern(v, child);
    case Minus(child) => SeenOccursInPattern(v, child);
    case Union(child1, child2) =>
      if IsVariableContainedInGraphPattern(v, child1, None) {
        SeenOccursInPattern(v, child1);
      } else {
        SeenOccursInPattern(v, child2);
      }
    case _ =>
  }

  lemma {:induction false} SeenOccursInPattern(v: Var, p: GraphPattern)
    requires IsVariableContainedInGraphPattern(v, p, None)
    ensures v in PatternVars(p) || HasMagicService(p)
    decreases p
  {
    if i: nat :| i < |p.filters| && v in p.filters[i].vars {
      assert v in PatternVars(p);
    } else {
      var i: nat :| i < |p.operations| && IsVariableContainedInOperation(v, p.operations[i], None);
      SeenOccurs(v, p.operations[i]);
    }
  }

  /** Variables of GRAPH clauses do occur. */
  lemma {:induction false} GraphVariableOccurs(v: Var, op: Operation)
    requires IsGraphVariableInOperation(v, op)
    ensures v in OperationVars(op)
    decreases op, 1
  {
    match op
    case GroupGraphPattern(child, spec) =>
      if IsGraphVariableInGraphPattern(v, child) {
        GraphVariableOccursInPattern(v, child);
      }
    case Optional(child) => GraphVariableOccursInPattern(v, child);
    case Minus(child) => GraphVariableOccursInPattern(v, child);
    case Union(child1, child2) =>
      if IsGraphVariableInGraphPattern(v, child1) {
        GraphVariableOccursInPattern(v, child1);
      } else {
        GraphVariableOccursInPattern(v, child2);
      }
  }

  lemma {:induction false} GraphVariableOccursInPattern(v: Var, p: GraphPattern)
    requires IsGraphVariableInGraphPattern(v, p)
    ensures v in PatternVars(p)
    decreases p
  {
    var i: nat :| i < |p.operations| && IsGraphVariableInOperation(v, p.operations[i]);
    GraphVariableOccurs(v, p.operations[i]);
  }

  /** A result has columns only for variables that occur, and for the variable of the GRAPH clause around. */
  lemma {:induction false} ColumnOccurs(v: Var, c: Context, op: Operation)
    requires OperationHasColumn(v, c, op)
    ensures v in OperationVars(op) || v in GraphVars(c)
    decreases op, 1
  {
    match op
    case BasicGraphPattern(triples) =>
      var t :| t in triples && v in TripleVars(c, t);
      assert v in AllTripleVars(t) || v in GraphVars(c);
    case Optional(child) => ColumnOccursInPattern(v, c, child);
    case GroupGraphPattern(child, spec) => ColumnOccursInPattern(v, ContextIn(spec, c), child);
    case Union(child1, child2) =>
      if HasColumn(v, c, child1) {
        ColumnOccursInPattern(v, c, child1);
      } else {
        ColumnOccursInPattern(v, c, child2);
      }
    case _ =>
  }

  lemma {:induction false} ColumnOccursInPattern(v: Var, c: Context, p: GraphPattern)
    requires HasColumn(v, c, p)
    ensures v in PatternVars(p) || v in GraphVars(c)
    decreases p
  {
    var i: nat :| i < |p.operations| && OperationHasColumn(v, c, p.operations[i]);
    ColumnOccurs(v, c, p.operations[i]);
  }

  // ---- Absent variables are not bound ---------------------------------------------------------------

  lemma TriplesAvoid(c: Context, op: Operation, vars: set<Var>)
    requires op.BasicGraphPattern? && Absent(vars, op) && GraphVars(c) !! vars
    ensures VarsOf(c, op.triples) !! vars
  {
    forall t, v | t in op.triples && v in TripleVars(c, t)
      ensures v !in vars
    {
      assert v in AllTripleVars(t) ==> v in OperationVars(op);
    }
  }

  lemma {:induction false} OwnSolutionAvoids(d: Data, c: Context, op: Operation, vars: set<Var>, n: Mapping)
    requires WellFormedOperation(op) && Absent(vars, op) && GraphVars(c) !! vars && OwnSolution(d, c, op, n)
    ensures n.Keys !! vars
    decreases op, 1
  {
    match op
    case BasicGraphPattern(_) => TriplesAvoid(c, op, vars);
    case GroupGraphPattern(child, spec) => SolutionAvoids(d, ContextIn(spec, c), child, vars, n);
    case Union(child1, child2) =>
      if IsSolution(d, c, child1, n) {
        SolutionAvoids(d, c, child1, vars, n);
      } else {
        SolutionAvoids(d, c, child2, vars, n);
      }
    case _ =>
  }

  lemma {:induction false} SolutionAvoids(d: Data, c: Context, p: GraphPattern, vars: set<Var>, n: Mapping)
    requires WellFormed(p) && Run(d, c, p.operations, map[], n) && PatternVars(p) !! vars && GraphVars(c) !! vars
    ensures n.Keys !! vars
    decreases p
  {
    AbsentInside(vars, p);
    RunAvoids(d, c, p.operations, vars, map[], n);
  }

  lemma {:induction false} StepAvoids(d: Data, c: Context, op: Operation, vars: set<Var>, m: Mapping, m': Mapping)
    requires WellFormedOperation(op) && Absent(vars, op) && GraphVars(c) !! vars
    requires Step(d, c, op, m, m') && m.Keys !! vars
    ensures m'.Keys !! vars
    decreases op, 2
  {
    match op
    case Optional(child) =>
      if n :| OptionalMatch(d, c, child, m, n) && m' == m + n {
        SolutionAvoids(d, c, child, vars, n);
      }
    case Minus(_) =>
    case Bind(_, _, _) =>
    case _ =>
      var n :| OwnSolution(d, c, op, n) && Compatible(m, n) && m' == m + n;
      OwnSolutionAvoids(d, c, op, vars, n);
  }

  lemma {:induction false} RunAvoids(d: Data, c: Context, ops: seq<Operation>, vars: set<Var>, m: Mapping, m': Mapping)
    requires AllWellFormed(ops) && AbsentFromAll(vars, ops) && GraphVars(c) !! vars
    requires Run(d, c, ops, m, m') && m.Keys !! vars
    ensures m'.Keys !! vars
    decreases ops
  {
    if ops != [] {
      var init, last := ops[..|ops| - 1], ops[|ops| - 1];
      var n := LastStep(d, c, ops, m, m');
      RunAvoids(d, c, init, vars, m, n);
      StepAvoids(d, c, last, vars, n, m');
    }
  }

  // ---- Absent variables make no difference ------------------------------------------------------------

  /** `m` has all the bindings of `e`. */
  ghost predicate Extends(m: Mapping, e: Mapping) {
    forall v | v in e :: v in m && m[v] == e[v]
  }

  /** `m'` is `m` with the bindings of `e` added. */
  lemma AddedIff(m: Mapping, e: Mapping, m': Mapping)
    requires m.Keys !! e.Keys
    ensures m' == m + e <==> Extends(m', e) && m' - e.Keys == m
  {
    if Extends(m', e) && m' - e.Keys == m {
      assert m'.Keys == (m + e).Keys;
      assert forall v | v in m' :: m'[v] == (m + e)[v];
    }
    if m' == m + e {
      assert (m' - e.Keys).Keys == m.Keys;
    }
  }

  lemma JoinFrame(m: Mapping, e: Mapping, n: Mapping, m': Mapping)
    requires m.Keys !! e.Keys && n.Keys !! e.Keys
    ensures Compatible(m + e, n) <==> Compatible(m, n)
    ensures m' == m + e + n <==> Extends(m', e) && m' - e.Keys == m + n
    ensures m + e + n == (m + n) + e
  {
    assert m + e + n == (m + n) + e;
    AddedIff(m + n, e, m');
    assert forall v | v in m && v in n :: (m + e)[v] == m[v];
  }

  lemma FiltersFrame(filters: seq<Filter>, e: Mapping, m: Mapping)
    requires FiltersWellFormed(filters) && AbsentFromFilters(e.Keys, filters) && m.Keys !! e.Keys
    ensures FiltersHold(filters, m + e) <==> FiltersHold(filters, m)
  {
    forall f | f in filters
      ensures f.holds(m + e) <==> f.holds(m)
    {
      var i :| 0 <= i < |filters| && filters[i] == f;
      assert FilterDependsOn(filters[i]);
      assert AgreeOn(f.vars, m + e, m);
    }
  }

  lemma {:induction false} StepFrame(d: Data, c: Context, op: Operation, e: Mapping, m: Mapping, m': Mapping)
    requires WellFormedOperation(op) && Absent(e.Keys, op) && GraphVars(c) !! e.Keys && m.Keys !! e.Keys
    ensures Step(d, c, op, m + e, m') <==> Extends(m', e) && Step(d, c, op, m, m' - e.Keys)
  {
    match op
    case Optional(child) => OptionalFrame(d, c, child, e, m, m');
    case Minus(child) => MinusFrame(d, c, child, e, m, m');
    case Bind(target, vars, expression) => BindFrame(d, c, op, e, m, m');
    case _ => OwnFrame(d, c, op, e, m, m');
  }

  lemma OwnFrame(d: Data, c: Context, op: Operation, e: Mapping, m: Mapping, m': Mapping)
    requires !op.Optional? && !op.Minus? && !op.Bind?
    requires WellFormedOperation(op) && Absent(e.Keys, op) && GraphVars(c) !! e.Keys && m.Keys !! e.Keys
    ensures Step(d, c, op, m + e, m') <==> Extends(m', e) && Step(d, c, op, m, m' - e.Keys)
  {
    forall n | OwnSolution(d, c, op, n)
      ensures Compatible(m + e, n) <==> Compatible(m, n)
      ensures m' == m + e + n <==> Extends(m', e) && m' - e.Keys == m + n
    {
      OwnSolutionAvoids(d, c, op, e.Keys, n);
      JoinFrame(m, e, n, m');
    }
  }

  lemma OptionalFrame(d: Data, c: Context, child: GraphPattern, e: Mapping, m: Mapping, m': Mapping)
    requires var op := Optional(child); WellFormedOperation(op) && Absent(e.Keys, op)
    requires GraphVars(c) !! e.Keys && m.Keys !! e.Keys
    ensures var op := Optional(child);
            Step(d, c, op, m + e, m') <==> Extends(m', e) && Step(d, c, op, m, m' - e.Keys)
  {
    AbsentInside(e.Keys, child);
    forall n | Run(d, c, child.operations, map[], n)
      ensures OptionalMatch(d, c, child, m + e, n) <==> OptionalMatch(d, c, child, m, n)
      ensures m' == m + e + n <==> Extends(m', e) && m' - e.Keys == m + n
    {
      SolutionAvoids(d, c, child, e.Keys, n);
      JoinFrame(m, e, n, m');
      FiltersFrame(child.filters, e, m + n);
    }
    AddedIff(m, e, m');
  }

  lemma MinusFrame(d: Data, c: Context, child: GraphPattern, e: Mapping, m: Mapping, m': Mapping)
    requires var op := Minus(child); WellFormedOperation(op) && Absent(e.Keys, op)
    requires GraphVars(c) !! e.Keys && m.Keys !! e.Keys
    ensures var op := Minus(child);
            Step(d, c, op, m + e, m') <==> Extends(m', e) && Step(d, c, op, m, m' - e.Keys)
  {
    forall n | IsSolution(d, c, child, n)
      ensures Compatible(m + e, n) <==> Compatible(m, n)
      ensures (m + e).Keys * n.Keys == m.Keys * n.Keys
    {
      SolutionAvoids(d, c, child, e.Keys, n);
      JoinFrame(m, e, n, m');
    }
    assert Excluded(d, c, child, m + e) <==> Excluded(d, c, child, m);
    AddedIff(m, e, m');
  }

  lemma BindFrame(d: Data, c: Context, op: Operation, e: Mapping, m: Mapping, m': Mapping)
    requires op.Bind? && WellFormedOperation(op) && Absent(e.Keys, op) && GraphVars(c) !! e.Keys && m.Keys !! e.Keys
    ensures Step(d, c, op, m + e, m') <==> Extends(m', e) && Step(d, c, op, m, m' - e.Keys)
  {
    assert AgreeOn(op.vars, m + e, m);
    assert op.expression(m + e) == op.expression(m);
    match op.expression(m)
    case None =>
      AddedIff(m, e, m');
    case Some(x) =>
      assert (m + e)[op.target := x] == m[op.target := x] + e;
      AddedIff(m[op.target := x], e, m');
  }

  /** The solutions of the operations do not depend on variables they do not contain, and keep them. */
  lemma {:induction false} RunFrame(d: Data, c: Context, ops: seq<Operation>, e: Mapping, m: Mapping, m': Mapping)
    requires AllWellFormed(ops) && AbsentFromAll(e.Keys, ops) && GraphVars(c) !! e.Keys && m.Keys !! e.Keys
    ensures Run(d, c, ops, m + e, m') <==> Extends(m', e) && Run(d, c, ops, m, m' - e.Keys)
    decreases |ops|
  {
    if ops == [] {
      AddedIff(m, e, m');
    } else {
      var init, last := ops[..|ops| - 1], ops[|ops| - 1];
      assert Absent(e.Keys, last) && WellFormedOperation(last);
      assert AllWellFormed(init) && AbsentFromAll(e.Keys, init);
      hide Run, Step, AbsentFromAll, AllWellFormed, Absent;
      if Run(d, c, ops, m + e, m') {
        var n := LastStep(d, c, ops, m + e, m');
        RunFrame(d, c, init, e, m, n);
        AddedIff(n - e.Keys, e, n);
        StepFrame(d, c, last, e, n - e.Keys, m');
        OneMoreStep(d, c, ops, m, n - e.Keys, m' - e.Keys);
      }
      if Extends(m', e) && Run(d, c, ops, m, m' - e.Keys) {
        var n := LastStep(d, c, ops, m, m' - e.Keys);
        RunAvoids(d, c, init, e.Keys, m, n);
        AddedIff(n, e, n + e);
        RunFrame(d, c, init, e, m, n + e);
        StepFrame(d, c, last, e, n, m');
        OneMoreStep(d, c, ops, m + e, n + e, m');
      }
    }
  }

  // ---- Bindings stay ------------------------------------------------------------------------------------

  lemma StepExtends(d: Data, c: Context, op: Operation, m: Mapping, m': Mapping)
    requires Step(d, c, op, m, m')
    ensures Extends(m', m)
  {}

  lemma {:induction false} RunExtends(d: Data, c: Context, ops: seq<Operation>, m: Mapping, m': Mapping)
    requires Run(d, c, ops, m, m')
    ensures Extends(m', m)
    decreases |ops|
  {
    if ops != [] {
      var init, last := ops[..|ops| - 1], ops[|ops| - 1];
      var n := LastStep(d, c, ops, m, m');
      RunExtends(d, c, init, m, n);
      StepExtends(d, c, last, n, m');
    }
  }

  ghost predicate RunBoth(d: Data, c: Context, a: seq<Operation>, b: seq<Operation>, m: Mapping, m': Mapping) {
    exists n :: Run(d, c, a, m, n) && Run(d, c, b, n, m')
  }

  lemma RunBothWith(d: Data, c: Context, a: seq<Operation>, b: seq<Operation>, m: Mapping, n: Mapping, m': Mapping)
    requires Run(d, c, a, m, n) && Run(d, c, b, n, m')
    ensures RunBoth(d, c, a, b, m, m')
  {}

  lemma RunNothing(d: Data, c: Context, m: Mapping, m': Mapping)
    ensures Run(d, c, [], m, m') <==> m == m'
  {}

  lemma {:induction false} RunAppend(d: Data, c: Context, a: seq<Operation>, b: seq<Operation>, m: Mapping, m': Mapping)
    ensures Run(d, c, a + b, m, m') <==> RunBoth(d, c, a, b, m, m')
    decreases |b|
  {
    hide Run, Step;
    if b == [] {
      assert a + b == a;
      forall n {
        RunNothing(d, c, n, m');
      }
    } else {
      var init, ab := b[..|b| - 1], a + b;
      assert ab[..|ab| - 1] == a + init && ab[|ab| - 1] == b[|b| - 1];
      if Run(d, c, ab, m, m') {
        var k := LastStep(d, c, ab, m, m');
        RunAppend(d, c, a, init, m, k);
        var n :| Run(d, c, a, m, n) && Run(d, c, init, n, k);
        OneMoreStep(d, c, b, n, k, m');
      }
      if RunBoth(d, c, a, b, m, m') {
        var n :| Run(d, c, a, m, n) && Run(d, c, b, n, m');
        var k := LastStep(d, c, b, n, m');
        RunBothWith(d, c, a, init, m, n, k);
        RunAppend(d, c, a, init, m, k);
        OneMoreStep(d, c, ab, m, k, m');
      }
    }
  }
}
