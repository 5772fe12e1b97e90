/**
 Detecting queries that count, for each predicate, the subjects that have it, and rewriting them such
 that they deliver the patterns of the subjects.
 */
module CheckUsePatternTrick {
  import opened Tables
  import opened Datasets
  import opened GraphPatterns
  import opened PatternFrames
  import opened PatternTrickMeaning
  import opened MaterializedViews

  datatype PatternTrickTuple = PatternTrickTuple(subject: Var, predicate': Var)

  datatype CountedVariable = CountedVariable(variable: Var, isDistinct: bool)

  datatype PatternTrickData = PatternTrickData(predicateVariable: Var, allowedCountVariable: Var,
                                               variablesNotAllowedInRestOfQuery: set<Var>, countMustBeDistinct: bool)

  // ---- Suitable triples -----------------------------------------------------------------------------

  predicate IsSimple(p: Predicate) {
    !p.PredicateVariable? && !p.PropertyPath?
  }

  function PatternTrickDataIfTripleIsPossible(t: SparqlTriple): Option<PatternTrickData> {
    if t.p.HasPredicate? && t.s.Variable? && t.o.Variable? && t.s != t.o then
      Some(PatternTrickData(t.o.name, t.s.name, {t.o.name}, true))
    else if t.s.Variable? && t.p.PredicateVariable? && t.o.Variable? then
      if t.s.name == t.o.name || t.s.name == t.p.name || t.o.name == t.p.name then None
      else Some(PatternTrickData(t.p.name, t.s.name, {t.p.name, t.o.name}, true))
    else None
  }

  /** `position` is where the triple is in the pattern. */
  function IsTripleSuitableForPatternTrick(t: SparqlTriple, root: GraphPattern, position: (nat, nat), groupBy: Var,
                                           counted: Option<CountedVariable>)
    : Option<PatternTrickTuple>
  {
    match PatternTrickDataIfTripleIsPossible(t)
    case None => None
    case Some(data) =>
      if groupBy != data.predicateVariable then None
      else if counted.Some? && !(counted.value.variable == data.allowedCountVariable
                                 && counted.value.isDistinct == data.countMustBeDistinct) then None
      else if exists v | v in data.variablesNotAllowedInRestOfQuery ::
                IsVariableContainedInGraphPattern(v, root, Some(position)) then None
      else Some(PatternTrickTuple(data.allowedCountVariable, data.predicateVariable))
  }

  predicate IsPosition(root: GraphPattern, i: nat, j: nat) {
    i < |root.operations| && root.operations[i].BasicGraphPattern? && j < |root.operations[i].triples|
  }

  function SuitableAt(root: GraphPattern, i: nat, j: nat, groupBy: Var, counted: Option<CountedVariable>)
    : Option<PatternTrickTuple>
    requires IsPosition(root, i, j)
  {
    IsTripleSuitableForPatternTrick(root.operations[i].triples[j], root, (i, j), groupBy, counted)
  }

  /** The triple is `?s ql:has-predicate ?p` or `?s ?p ?o`, and its variables differ and, except for the subject, do not
      occur elsewhere as far as the check sees. The query groups by the predicate and counts, if anything, the
      distinct subjects. */
  ghost predicate IsSuitable(root: GraphPattern, i: nat, j: nat, groupBy: Var, counted: Option<CountedVariable>,
                             subject: Var, predicate': Var)
    requires IsPosition(root, i, j)
  {
    && HasTrickShape(root, i, j, subject, predicate') && OccursOnlyAt(root, i, j, predicate')
    && groupBy == predicate' && (counted.Some? ==> counted == Some(CountedVariable(subject, true)))
  }

  ghost predicate HasTrickShape(root: GraphPattern, i: nat, j: nat, subject: Var, predicate': Var)
    requires IsPosition(root, i, j)
  {
    var t := root.operations[i].triples[j];
    && t.s == Variable(subject) && subject != predicate'
    && match t.p
       case HasPredicate => t.o == Variable(predicate')
       case PredicateVariable(p) =>
         p == predicate' && t.o.Variable? && t.o.name != subject && t.o.name != p && OccursOnlyAt(root, i, j, t.o.name)
       case _ => false
  }

  ghost predicate OccursOnlyAt(root: GraphPattern, i: nat, j: nat, v: Var) {
    !IsVariableContainedInGraphPattern(v, root, Some((i, j)))
  }

  lemma SuitableIff(root: GraphPattern, i: nat, j: nat, groupBy: Var, counted: Option<CountedVariable>, tuple: PatternTrickTuple)
    requires IsPosition(root, i, j)
    ensures SuitableAt(root, i, j, groupBy, counted) == Some(tuple)
       <==> IsSuitable(root, i, j, groupBy, counted, tuple.subject, tuple.predicate')
  {
    hide IsVariableContainedInGraphPattern;
  }

  // ---- The rewriting --------------------------------------------------------------------------------

  predicate HasSubject(t: SparqlTriple, s: Var) {
    t.s == Variable(s) && IsSimple(t.p)
  }

  predicate HasObject(t: SparqlTriple, s: Var) {
    t.o == Variable(s) && IsSimple(t.p)
  }

  function HasPatternTriple(tuple: PatternTrickTuple): SparqlTriple {
    SparqlTriple(Variable(tuple.subject), HasPattern, Variable(tuple.predicate'), [])
  }

  /** The triple that gets the column: the first one with a simple predicate that has the subject variable as
      subject, or, if there is none, the first one that has it as object. */
  predicate IsChosen(ts: seq<SparqlTriple>, s: Var, k: nat, column: AdditionalColumn) {
    && k < |ts|
    && match column
       case SubjectPattern => HasSubject(ts[k], s) && forall l | 0 <= l < k :: !HasSubject(ts[l], s)
       case ObjectPattern =>
         && (forall l | 0 <= l < |ts| :: !HasSubject(ts[l], s))
         && HasObject(ts[k], s) && forall l | 0 <= l < k :: !HasObject(ts[l], s)
  }

  /** No triple can get the column, so that a triple of its own is needed. */
  ghost predicate OwnTripleNeeded(tuple: PatternTrickTuple, ts: seq<SparqlTriple>) {
    forall t | t in ts :: !HasSubject(t, tuple.subject) && !HasObject(t, tuple.subject)
  }

  ghost predicate RewrittenTriples(tuple: PatternTrickTuple, before: seq<SparqlTriple>, after: seq<SparqlTriple>) {
    || (OwnTripleNeeded(tuple, before) && after == before + [HasPatternTriple(tuple)])
    || exists k: nat, column :: IsChosen(before, tuple.subject, k, column)
                           && after == before[k := WithColumn(before[k], column, tuple.predicate')]
  }

  /** One triple gets the column, unless a triple of its own is needed. */
  lemma ChosenIsUnique(tuple: PatternTrickTuple, ts: seq<SparqlTriple>, k: nat, column: AdditionalColumn, k': nat,
                       column': AdditionalColumn)
    requires IsChosen(ts, tuple.subject, k, column)
    ensures IsChosen(ts, tuple.subject, k', column') ==> k == k' && column == column'
    ensures !OwnTripleNeeded(tuple, ts)
  {
    assert ts[k] in ts;
  }

  /** The triple that gets the column, if any, is one whose scan has it: it is an ordinary scan of the index. */
  predicate PatternAvailable(ts: seq<SparqlTriple>, s: Var) {
    forall k: nat, column: AdditionalColumn | k < |ts| && IsChosen(ts, s, k, column) :: KindOf(ts[k]) == OrdinaryScan
  }

  /** The predicate is one IRI. */
  predicate IsOneIri(p: Predicate) {
    match p
    case PredicateVariable(_) => false
    case PropertyPath(_, _) => false
    case _ => true
  }

  /** Rewriting triples and finding views look at the same predicates. */
  lemma SimplePredicateIff(p: Predicate)
    ensures IsSimple(p) <==> IsOneIri(p)
    ensures GetSimplePredicate(p).Some? <==> IsOneIri(p)
  {}

  /** The first triple with one IRI as predicate that has the variable as subject, or as object. */
  ghost predicate IsFirst(ts: seq<SparqlTriple>, s: Var, k: nat, column: AdditionalColumn) {
    && k < |ts| && IsSourceOf(ts[k], column, s) && IsOneIri(ts[k].p)
    && forall l | 0 <= l < k :: !(IsSourceOf(ts[l], column, s) && IsOneIri(ts[l].p))
  }

  /** Take the first such triple with the variable as subject, or, if there is none, as object. The pattern is available
      if there is none either, or if the predicate has no meaning of its own and nothing in the triple is internal to
      the engine. */
  lemma PatternAvailableIff(ts: seq<SparqlTriple>, s: Var)
    ensures PatternAvailable(ts, s)
       <==> && (forall k: nat | IsFirst(ts, s, k, SubjectPattern) :: IsPlain(ts[k]))
            && ((forall t | t in ts :: t.s == Variable(s) ==> !IsOneIri(t.p))
                ==> forall k: nat | IsFirst(ts, s, k, ObjectPattern) :: IsPlain(ts[k]))
  {
    var noSubject := forall t | t in ts :: t.s == Variable(s) ==> !IsOneIri(t.p);
    forall k: nat
      ensures IsFirst(ts, s, k, SubjectPattern) <==> IsChosen(ts, s, k, SubjectPattern)
      ensures noSubject && IsFirst(ts, s, k, ObjectPattern) <==> IsChosen(ts, s, k, ObjectPattern)
    {}
  }

  ghost predicate IsPlain(t: SparqlTriple) {
    t.p.SimpleIri? && !(t.s.Constant? && t.s.isInternal) && !(t.o.Constant? && t.o.isInternal)
  }

  ghost predicate RewrittenPattern(before: GraphPattern, i: nat, j: nat, tuple: PatternTrickTuple, after: GraphPattern)
    requires IsPosition(before, i, j)
  {
    && |after.operations| == |before.operations| && after.operations[i].BasicGraphPattern?
    && after == before.(operations := before.operations[i := after.operations[i]])
    && RewrittenTriples(tuple, Without(before.operations[i].triples, j), after.operations[i].triples)
  }

  /** The position in reading order before which there is no suitable triple. */
  ghost predicate NoneBefore(root: GraphPattern, i: nat, j: nat, groupBy: Var, counted: Option<CountedVariable>) {
    forall k: nat, l: nat | IsPosition(root, k, l) && (k < i || (k == i && l < j)) ::
      SuitableAt(root, k, l, groupBy, counted) == None
  }

  /** The first suitable triple is the one at position `(i, j)`, and the pattern is rewritten for it. */
  ghost predicate RewrittenAt(before: GraphPattern, i: nat, j: nat, groupBy: Var, counted: Option<CountedVariable>,
                              tuple: PatternTrickTuple, after: GraphPattern)
  {
    && IsPosition(before, i, j) && NoneBefore(before, i, j, groupBy, counted)
    && SuitableAt(before, i, j, groupBy, counted) == Some(tuple)
    && RewrittenPattern(before, i, j, tuple, after)
  }

  class ParsedQuery {
    var rootGraphPattern: GraphPattern
    const groupByVariables: seq<Var>
    /** The aliases of the SELECT clause; `None` is one that is not the count of a variable. */
    const aliases: seq<Option<CountedVariable>>

    /** Whether this is a SELECT query. Others have no aliases. */
    const hasSelectClause: bool

    constructor (rootGraphPattern: GraphPattern, groupByVariables: seq<Var>, aliases: seq<Option<CountedVariable>>,
                 hasSelectClause: bool)
      ensures this.rootGraphPattern == rootGraphPattern && this.hasSelectClause == hasSelectClause
      ensures this.groupByVariables == groupByVariables && this.aliases == aliases
    {
      this.rootGraphPattern, this.hasSelectClause := rootGraphPattern, hasSelectClause;
      this.groupByVariables, this.aliases := groupByVariables, aliases;
    }

    /** The grouping and the aliases have the right form. */
    predicate Countable() {
      |groupByVariables| == 1 && |aliases| <= 1 && (|aliases| == 1 ==> aliases[0].Some?)
    }

    function Counted(): Option<CountedVariable>
      requires Countable()
    {
      if |aliases| == 1 then aliases[0] else None
    }

    method FindPatternTrickTuple(i: nat) returns (tuple: Option<PatternTrickTuple>)
      requires Countable() && i < |rootGraphPattern.operations| && rootGraphPattern.operations[i].BasicGraphPattern?
      requires NoneBefore(rootGraphPattern, i, 0, groupByVariables[0], Counted())
      modifies this
      ensures tuple.None? ==> rootGraphPattern == old(rootGraphPattern)
                              && NoneBefore(rootGraphPattern, i + 1, 0, groupByVariables[0], Counted())
      ensures tuple.Some? ==> exists j: nat ::
                RewrittenAt(old(rootGraphPattern), i, j, groupByVariables[0], Counted(), tuple.value, rootGraphPattern)
    {
      var triples := rootGraphPattern.operations[i].triples;
      for j := 0 to |triples|
        invariant rootGraphPattern == old(rootGraphPattern)
        invariant NoneBefore(rootGraphPattern, i, j, groupByVariables[0], Counted())
      {
        tuple := IsTripleSuitableForPatternTrick(triples[j], rootGraphPattern, (i, j), groupByVariables[0], Counted());
        if tuple.Some? {
          triples := Without(triples, j);
          triples := RewriteTriplesForPatternTrick(tuple.value, triples);
          rootGraphPattern :=
            rootGraphPattern.(operations := rootGraphPattern.operations[i := BasicGraphPattern(triples)]);
          assert RewrittenAt(old(rootGraphPattern), i, j, groupByVariables[0], Counted(), tuple.value, rootGraphPattern);
          return;
        }
      }
      return None;
    }

    /** Finds the first suitable triple of the query, if there is one, and rewrites the query. */
    method CheckUsePatternTrick() returns (tuple: Option<PatternTrickTuple>)
      modifies this
      ensures tuple.None? ==> rootGraphPattern == old(rootGraphPattern)
      ensures tuple.None? && Countable() ==> forall i: nat, j: nat | IsPosition(rootGraphPattern, i, j) ::
                SuitableAt(rootGraphPattern, i, j, groupByVariables[0], Counted()) == None
      ensures tuple.Some? ==> Countable() && exists i: nat, j: nat ::
                RewrittenAt(old(rootGraphPattern), i, j, groupByVariables[0], Counted(), tuple.value, rootGraphPattern)
    {
      if |groupByVariables| != 1 || |aliases| > 1 {
        return None;
      }
      if |aliases| == 1 && aliases[0].None? {
        return None;
      }
      for i := 0 to |rootGraphPattern.operations|
        invariant rootGraphPattern == old(rootGraphPattern)
        invariant NoneBefore(rootGraphPattern, i, 0, groupByVariables[0], Counted())
      {
        if !rootGraphPattern.operations[i].BasicGraphPattern? {
          continue;
        }
        tuple := FindPatternTrickTuple(i);
        if tuple.Some? {
          return;
        }
      }
      return None;
    }
  }

  method RewriteTriplesForPatternTrick(tuple: PatternTrickTuple, triples: seq<SparqlTriple>)
    returns (result: seq<SparqlTriple>)
    ensures RewrittenTriples(tuple, triples, result)
  {
    var k := FindTriple(triples, t => HasSubject(t, tuple.subject));
    if k < |triples| {
      assert IsChosen(triples, tuple.subject, k, SubjectPattern);
      return triples[k := WithColumn(triples[k], SubjectPattern, tuple.predicate')];
    }
    k := FindTriple(triples, t => HasObject(t, tuple.subject));
    if k < |triples| {
      assert IsChosen(triples, tuple.subject, k, ObjectPattern);
      return triples[k := WithColumn(triples[k], ObjectPattern, tuple.predicate')];
    }
    return triples + [HasPatternTriple(tuple)];
  }

  /** The position of the first triple with the property, or the number of triples. */
  method FindTriple(triples: seq<SparqlTriple>, has: SparqlTriple -> bool) returns (k: nat)
    ensures k <= |triples| && (k < |triples| ==> has(triples[k]))
    ensures forall l | 0 <= l < k :: !has(triples[l])
  {
    k := 0;
    while k < |triples| && !has(triples[k])
      invariant k <= |triples|
      invariant forall l | 0 <= l < k :: !has(triples[l])
    {
      k := k + 1;
    }
  }

  // ---- The rewriting preserves the meaning ------------------------------------------------------------

  /** The variables besides the subject. */
  ghost function Others(t: SparqlTriple): set<Var>
    requires PatternTrickDataIfTripleIsPossible(t).Some?
  {
    PatternTrickDataIfTripleIsPossible(t).value.variablesNotAllowedInRestOfQuery
  }

  /** The triple shares only its subject with the rest of the query. */
  ghost predicate Isolated(root: GraphPattern, i: nat, j: nat, s: Var, vars: set<Var>)
    requires IsPosition(root, i, j)
  {
    var ts := root.operations[i].triples;
    && Separate(SurroundingsOf(root, i), vars)
    && AllTripleVars(ts[j]) == {s} + vars && s !in vars
    && OperationVars(BasicGraphPattern(Without(ts, j))) !! vars
  }

  /** A suitable triple shares only its subject with the rest of the query if and only if none of its other
      variables is the variable of a GRAPH clause. */
  lemma SuitableIsIsolatedIff(root: GraphPattern, i: nat, j: nat, groupBy: Var, counted: Option<CountedVariable>)
    requires WellFormed(root) && IsPosition(root, i, j) && SuitableAt(root, i, j, groupBy, counted).Some?
    ensures var tuple := SuitableAt(root, i, j, groupBy, counted).value;
            var vars := Others(root.operations[i].triples[j]);
            && tuple.predicate' in vars
            && (Isolated(root, i, j, tuple.subject, vars)
                <==> forall v | v in vars :: !IsGraphVariableInGraphPattern(v, root))
  {
    var ts := root.operations[i].triples;
    var vars := Others(ts[j]);
    assert WellFormedOperation(root.operations[i]);
    assert ts[j] in ts;
    assert ColumnVars(ts[j]) == {};
    forall v | v in vars
      ensures !IsVariableContainedInGraphPattern(v, root, Some((i, j)))
    {}
    if forall v | v in vars :: !IsGraphVariableInGraphPattern(v, root) {
      OutsideIsSeparate(root, i, j, vars);
    } else {
      var v :| v in vars && IsGraphVariableInGraphPattern(v, root);
      GraphVariableOutside(root, i, j, v);
    }
    RestAvoids(root, i, j, vars);
  }

  /** The query without the triple. */
  function Erased(root: GraphPattern, i: nat, j: nat): GraphPattern
    requires IsPosition(root, i, j)
  {
    root.(operations := root.operations[i := BasicGraphPattern(Without(root.operations[i].triples, j))])
  }

  /** The check finds a variable outside a triple, or it is that of a GRAPH clause, if and only if it occurs in the query
      without the triple, or some service is taken to contain every variable. */
  lemma OccursElsewhereIff(root: GraphPattern, i: nat, j: nat, v: Var)
    requires WellFormed(root) && IsPosition(root, i, j)
    ensures IsVariableContainedInGraphPattern(v, root, Some((i, j))) || IsGraphVariableInGraphPattern(v, root)
       <==> v in PatternVars(Erased(root, i, j)) || HasMagicService(root)
  {
    var rest := Erased(root, i, j);
    if IsVariableContainedInGraphPattern(v, root, Some((i, j))) {
      SeenElsewhere(root, i, j, v);
    }
    if IsGraphVariableInGraphPattern(v, root) {
      var k: nat :| k < |root.operations| && IsGraphVariableInOperation(v, root.operations[k]);
      GraphVariableOccurs(v, rest.operations[k]);
    }
    if v in PatternVars(rest) {
      OccursElsewhere(root, i, j, v);
    }
    if HasMagicService(root) {
      var k: nat :| k < |root.operations| && HasMagicServiceInOperation(root.operations[k]);
      MagicIsSeen(v, root.operations[k]);
    }
  }

  lemma SeenElsewhere(root: GraphPattern, i: nat, j: nat, v: Var)
    requires IsPosition(root, i, j) && IsVariableContainedInGraphPattern(v, root, Some((i, j)))
    ensures v in PatternVars(Erased(root, i, j)) || HasMagicService(root)
  {
    var rest := Erased(root, i, j);
    if k: nat :| k < |root.filters| && v in root.filters[k].vars {
      assert rest.filters[k] == root.filters[k];
    } else {
      var k: nat :| k < |root.operations|
                    && IsVariableContainedInOperation(v, root.operations[k], if i == k then Some(j) else None);
      if k == i {
        var ts := root.operations[i].triples;
        var l: nat :| l < |ts| && l != j && IsVariableContainedInTriple(v, ts[l]);
        assert Without(ts, j)[if l < j then l else l - 1] == ts[l];
        assert ts[l] in Without(ts, j) && v in AllTripleVars(ts[l]);
        assert v in OperationVars(BasicGraphPattern(Without(ts, j)));
        assert v in OperationVars(rest.operations[i]);
      } else {
        SeenOccurs(v, root.operations[k]);
        assert rest.operations[k] == root.operations[k];
      }
    }
  }

  lemma OccursElsewhere(root: GraphPattern, i: nat, j: nat, v: Var)
    requires WellFormed(root) && IsPosition(root, i, j) && v in PatternVars(Erased(root, i, j))
    ensures IsVariableContainedInGraphPattern(v, root, Some((i, j))) || IsGraphVariableInGraphPattern(v, root)
  {
    var rest := Erased(root, i, j);
    if k: nat :| k < |rest.filters| && v in rest.filters[k].vars {
      assert rest.filters[k] == root.filters[k];
    } else {
      var k: nat :| k < |rest.operations| && v in OperationVars(rest.operations[k]);
      assert root.operations[k] in root.operations && WellFormedOperation(root.operations[k]);
      hide OperationVars, IsVariableContainedInOperation, WellFormedOperation;
      if k == i {
        OccursInOtherTriple(root.operations[i].triples, j, v);
      } else {
        OccurrenceIsSeen(v, root.operations[k]);
      }
    }
  }

  lemma OccursInOtherTriple(ts: seq<SparqlTriple>, j: nat, v: Var)
    requires j < |ts| && WellFormedOperation(BasicGraphPattern(ts)) && v in OperationVars(BasicGraphPattern(Without(ts, j)))
    ensures IsVariableContainedInOperation(v, BasicGraphPattern(ts), Some(j))
  {
    var t :| t in Without(ts, j) && v in AllTripleVars(t);
    WithoutPosition(ts, j, t);
    var l: nat :| l < |ts| && l != j && ts[l] == t;
    assert ts[l] in ts && IsVariableContainedInTriple(v, ts[l]);
  }

  lemma {:induction false} MagicIsSeen(v: Var, op: Operation)
    requires HasMagicServiceInOperation(op)
    ensures IsVariableContainedInOperation(v, op, None)
    decreases op, 1
  {
    match op
    case Optional(child) => MagicIsSeenInPattern(v, child);
    case GroupGraphPattern(child, _) => MagicIsSeenInPattern(v, child);
    case Minus(child) => MagicIsSeenInPattern(v, child);
    case Union(child1, child2) =>
      if HasMagicService(child1) {
        MagicIsSeenInPattern(v, child1);
      } else {
        MagicIsSeenInPattern(v, child2);
      }
    case _ =>
  }

  lemma {:induction false} MagicIsSeenInPattern(v: Var, p: GraphPattern)
    requires HasMagicService(p)
    ensures IsVariableContainedInGraphPattern(v, p, None)
    decreases p
  {
    var k: nat :| k < |p.operations| && HasMagicServiceInOperation(p.operations[k]);
    MagicIsSeen(v, p.operations[k]);
  }

  lemma OutsideIsSeparate(root: GraphPattern, i: nat, j: nat, vars: set<Var>)
    requires WellFormed(root) && IsPosition(root, i, j)
    requires forall v | v in vars :: !IsVariableContainedInGraphPattern(v, root, Some((i, j)))
    requires forall v | v in vars :: !IsGraphVariableInGraphPattern(v, root)
    ensures Separate(SurroundingsOf(root, i), vars)
  {
    forall k: nat, v | k < |root.operations| && k != i && v in OperationVars(root.operations[k])
      ensures v !in vars
    {
      assert root.operations[k] in root.operations;
      OccurrenceIsSeen(v, root.operations[k]);
      if IsVariableContainedInOperation(v, root.operations[k], None) {
        assert IsVariableContainedInGraphPattern(v, root, Some((i, j)));
      } else {
        assert IsGraphVariableInGraphPattern(v, root);
      }
    }
    forall k: nat | k < |root.operations|
      ensures WellFormedOperation(root.operations[k])
    {
      assert root.operations[k] in root.operations;
    }
    forall k: nat | k < |root.filters|
      ensures FilterDependsOn(root.filters[k])
    {
      assert root.filters[k] in root.filters;
    }
    forall k: nat, v | k < |root.filters| && v in vars
      ensures v !in root.filters[k].vars
    {
      assert !IsVariableContainedInGraphPattern(v, root, Some((i, j)));
    }
  }

  lemma GraphVariableOutside(root: GraphPattern, i: nat, j: nat, v: Var)
    requires IsPosition(root, i, j) && IsGraphVariableInGraphPattern(v, root)
    ensures !Separate(SurroundingsOf(root, i), {v})
    ensures forall vars: set<Var> | v in vars :: !Separate(SurroundingsOf(root, i), vars)
  {
    var k: nat :| k < |root.operations| && IsGraphVariableInOperation(v, root.operations[k]);
    GraphVariableOccurs(v, root.operations[k]);
    var w := SurroundingsOf(root, i);
    assert k != i;
    assert root.operations[k] == if k < i then w.before[k] else w.after[k - i - 1];
    forall vars: set<Var> | v in vars
      ensures !Separate(w, vars)
    {
      assert !Absent(vars, root.operations[k]);
    }
  }

  lemma RestAvoids(root: GraphPattern, i: nat, j: nat, vars: set<Var>)
    requires WellFormed(root) && IsPosition(root, i, j)
    requires forall v | v in vars :: !IsVariableContainedInGraphPattern(v, root, Some((i, j)))
    ensures OperationVars(BasicGraphPattern(Without(root.operations[i].triples, j))) !! vars
  {
    var op := root.operations[i];
    var ts := op.triples;
    assert WellFormedOperation(op);
    forall t, v | t in Without(ts, j) && v in AllTripleVars(t)
      ensures v !in vars
    {
      WithoutPosition(ts, j, t);
      var k: nat :| k < |ts| && k != j && ts[k] == t;
      assert ts[k] in ts;
      assert IsVariableContainedInTriple(v, ts[k]);
      assert IsVariableContainedInOperation(v, op, Some(j));
      assert IsVariableContainedInGraphPattern(v, root, Some((i, j)));
    }
  }

  lemma WithoutPosition<T>(ts: seq<T>, j: nat, t: T)
    requires j < |ts| && t in Without(ts, j)
    ensures exists k: nat :: k < |ts| && k != j && ts[k] == t
  {
    var l :| 0 <= l < |ts| - 1 && Without(ts, j)[l] == t;
    assert ts[if l < j then l else l + 1] == t;
  }

  /** Outside GRAPH clauses, the solutions bind the variables that occur. */
  lemma VarsAtTopLevel(c: Context, ts: seq<SparqlTriple>, vars: set<Var>)
    requires c.graphVariable.None? && OperationVars(BasicGraphPattern(ts)) !! vars
    ensures VarsOf(c, ts) !! vars
  {
    forall t, v | t in ts && v in TripleVars(c, t)
      ensures v !in vars
    {
      assert v in AllTripleVars(t);
      assert v in OperationVars(BasicGraphPattern(ts));
    }
  }

  /** Before: the base solutions, extended such that the triple holds. */
  lemma OriginalMeaning(d: Data, c: Context, root: GraphPattern, i: nat, j: nat, s: Var, vars: set<Var>, m: Mapping)
    requires c.graphVariable.None? && IsPosition(root, i, j) && Isolated(root, i, j, s, vars)
    requires root.operations[i].triples[j].additionalScanColumns == []
    ensures var ts := root.operations[i].triples;
            IsSolution(d, c, root, m)
            <==> vars <= m.Keys && BaseSolution(d, c, SurroundingsOf(root, i), Without(ts, j), s, m - vars)
                 && TripleHolds(d, c, ts[j], m)
  {
    var ts := root.operations[i].triples;
    assert ColumnVars(ts[j]) == {};
    assert TripleVars(c, ts[j]) == {s} + vars;
    VarsAtTopLevel(c, Without(ts, j), vars);
    hide Separate, OwnSolution, IsSolution, BaseSolution, SurroundingsOf, TripleVars, AllTripleVars, VarsOf;
    var condition := m => TripleHolds(d, c, ts[j], m);
    forall n {:trigger OwnSolution(d, c, root.operations[i], n)}
      ensures OwnSolution(d, c, root.operations[i], n) <==> BaseAnd(d, c, Without(ts, j), s, vars, condition, n)
    {
      OwnTriple(d, c, ts, j, s, vars, n);
    }
    forall a, b | AgreeOn({s} + vars, a, b)
      ensures condition(a) <==> condition(b)
    {
      HoldsAgree(d, c, ts[j], a, b);
    }
    SolutionIff(d, c, root, i, Without(ts, j), s, vars, condition, m);
  }

  /** The internal part of the index holds the pattern of each id that has one. */
  ghost predicate PatternsStored(d: Data) {
    forall s, k, g :: Quad(s, d.hasPatternIri, k, g) in d.internalQuads
                      <==> g == d.internalGraph && k == d.patternOf(s) != NO_PATTERN
  }

  /** The graph of the stored patterns is one of the active graphs. */
  ghost predicate StoredPatternsActive(d: Data, c: Context) {
    GetActiveGraphs(c, d.defaultGraph).IsGraphAllowed(d.internalGraph)
  }

  /** The solution binds the predicate variable to the pattern of the subject; `own` if the pattern comes from
      a triple of its own, which finds only stored patterns. */
  ghost predicate Delivers(d: Data, c: Context, tuple: PatternTrickTuple, own: bool, m: Mapping) {
    var s, p := tuple.subject, tuple.predicate';
    s in m && p in m && m[p] == d.patternOf(m[s]) && (own ==> m[p] != NO_PATTERN && StoredPatternsActive(d, c))
  }

  /** If the pattern is available, the rewriting adds the pattern of the subject to the solutions. */
  lemma RewrittenTriplesMeaning(d: Data, c: Context, tuple: PatternTrickTuple, before: seq<SparqlTriple>,
                                after: seq<SparqlTriple>, m: Mapping)
    requires RewrittenTriples(tuple, before, after) && PatternAvailable(before, tuple.subject)
    requires PatternsStored(d) && c.graphVariable.None?
    requires tuple.subject != tuple.predicate' && tuple.predicate' !in VarsOf(c, before)
    ensures OwnSolution(d, c, BasicGraphPattern(after), m)
       <==> BaseAnd(d, c, before, tuple.subject, {tuple.predicate'},
                    n => Delivers(d, c, tuple, OwnTripleNeeded(tuple, before), n), m)
  {
    hide OwnSolution, Base, VarsOf, HasSubject, HasObject, PatternsStored, KindOf;
    var s, p := tuple.subject, tuple.predicate';
    if OwnTripleNeeded(tuple, before) && after == before + [HasPatternTriple(tuple)] {
      var t, j := HasPatternTriple(tuple), |before|;
      assert after[j] == t && Without(after, j) == before;
      HasPatternHolds(d, c, tuple, m);
      OwnTriple(d, c, after, j, s, {p}, m);
    } else {
      var k: nat, column :| IsChosen(before, s, k, column) && after == before[k := WithColumn(before[k], column, p)];
      ChosenIsUnique(tuple, before, k, column, k, column);
      ChosenIsSource(before, s, k, column);
      OwnColumn(d, c, before, k, column, s, p, m);
    }
  }

  lemma ChosenIsSource(ts: seq<SparqlTriple>, s: Var, k: nat, column: AdditionalColumn)
    requires IsChosen(ts, s, k, column)
    ensures k < |ts| && IsSourceOf(ts[k], column, s)
  {}

  /** The scans of the triples bind the predicate variable if and only if the pattern is available. If it is not,
      the rewriting has only erased the triple. */
  lemma ScansBindPredicateIff(d: Data, c: Context, tuple: PatternTrickTuple, before: seq<SparqlTriple>,
                          after: seq<SparqlTriple>, m: Mapping)
    requires RewrittenTriples(tuple, before, after) && tuple.predicate' !in VarsOf(c, before)
    ensures tuple.predicate' in VarsOf(c, after) <==> PatternAvailable(before, tuple.subject)
    ensures !PatternAvailable(before, tuple.subject)
            ==> (OwnSolution(d, c, BasicGraphPattern(after), m) <==> OwnSolution(d, c, BasicGraphPattern(before), m))
  {
    var s, p := tuple.subject, tuple.predicate';
    if OwnTripleNeeded(tuple, before) && after == before + [HasPatternTriple(tuple)] {
      forall k: nat, column: AdditionalColumn | k < |before|
        ensures !IsChosen(before, s, k, column)
      {
        if IsChosen(before, s, k, column) {
          ChosenIsUnique(tuple, before, k, column, k, column);
        }
      }
      assert HasPatternTriple(tuple) in after && p in TripleVars(c, HasPatternTriple(tuple));
    } else {
      var k: nat, column :| IsChosen(before, s, k, column) && after == before[k := WithColumn(before[k], column, p)];
      OnlyChosen(tuple, before, k, column);
      ChosenIsSource(before, s, k, column);
      if KindOf(before[k]) == OrdinaryScan {
        ColumnMatches(d, c, before, k, column, s, p, m);
      } else {
        NoColumn(d, c, before, k, column, p, m);
      }
    }
  }

  lemma OnlyChosen(tuple: PatternTrickTuple, ts: seq<SparqlTriple>, k: nat, column: AdditionalColumn)
    requires IsChosen(ts, tuple.subject, k, column)
    ensures PatternAvailable(ts, tuple.subject) <==> KindOf(ts[k]) == OrdinaryScan
  {
    forall k': nat, column': AdditionalColumn | IsChosen(ts, tuple.subject, k', column')
      ensures k' == k
    {
      ChosenIsUnique(tuple, ts, k, column, k', column');
    }
  }

  // ---- The plans of the rewritten query -----------------------------------------------------------------

  /** At most the triple that was chosen has an additional column. */
  lemma ColumnsOfRewritten(tuple: PatternTrickTuple, before: seq<SparqlTriple>, after: seq<SparqlTriple>)
    returns (k: Option<nat>)
    requires RewrittenTriples(tuple, before, after) && forall t | t in before :: t.additionalScanColumns == []
    ensures forall l: nat | l < |after| && Some(l) != k :: after[l].additionalScanColumns == []
    ensures k.Some? ==> k.value < |after| == |before| && after[k.value].additionalScanColumns != []
                        && after[k.value := WithoutColumns(after[k.value])] == before
  {
    if OwnTripleNeeded(tuple, before) && after == before + [HasPatternTriple(tuple)] {
      return None;
    }
    var n: nat, column :| IsChosen(before, tuple.subject, n, column)
                          && after == before[n := WithColumn(before[n], column, tuple.predicate')];
    assert before[n] in before;
    return Some(n);
  }

  /** The planner keeps the rewritten query as it is, unless a view covers the triple that was chosen; then it may
      also end up with the query in which the triple has only been erased. */
  lemma MayPlanRewrittenIff(views: set<View>, c: Context, root: GraphPattern, i: nat, j: nat, tuple: PatternTrickTuple,
                            after: GraphPattern, planned: GraphPattern)
    requires WellFormed(root) && IsPosition(root, i, j) && RewrittenPattern(root, i, j, tuple, after)
    ensures MayPlan(views, c, after, planned)
       <==> planned == after || (planned == Erased(root, i, j) && !ColumnsKept(views, c, after.operations, i))
  {
    var before, us := Without(root.operations[i].triples, j), after.operations[i].triples;
    forall k: nat | k < |root.operations|
      ensures WellFormedOperation(root.operations[k])
    {
      assert root.operations[k] in root.operations;
    }
    var k := ColumnsOfRewritten(tuple, before, us);
    hide IsCovered, RewrittenTriples, WellFormed, WellFormedOperation, Without;
    if MayPlan(views, c, after, planned) {
      forall l: nat | l < |after.operations| && l != i
        ensures planned.operations[l] == after.operations[l]
      {
        PlannedWithoutColumns(views, c, after.operations, l, planned.operations[l]);
      }
      PlannedWithOneColumn(views, c, after.operations, i, k, planned.operations[i]);
      if planned.operations[i] == after.operations[i] {
        assert planned.operations == after.operations;
      } else {
        assert planned.operations == Erased(root, i, j).operations;
      }
    }
    if !ColumnsKept(views, c, after.operations, i) {
      MayErase(views, c, after.operations, i, k, before);
      hide MayPlanOperation;
      MayPlanErased(views, c, after, i, BasicGraphPattern(before));
    }
  }

  lemma MayErase(views: set<View>, c: Context, ops: seq<Operation>, i: nat, k: Option<nat>, before: seq<SparqlTriple>)
    requires i < |ops| && ops[i].BasicGraphPattern? && !ColumnsKept(views, c, ops, i)
    requires forall l: nat | l < |ops[i].triples| && Some(l) != k :: ops[i].triples[l].additionalScanColumns == []
    requires k.Some? ==> k.value < |ops[i].triples| && before == ops[i].triples[k.value := WithoutColumns(ops[i].triples[k.value])]
    ensures MayPlanOperation(views, c, ops, i, BasicGraphPattern(before))
  {
    hide IsCovered;
  }

  lemma MayPlanErased(views: set<View>, c: Context, after: GraphPattern, i: nat, op: Operation)
    requires i < |after.operations| && MayPlanOperation(views, c, after.operations, i, op)
    ensures MayPlan(views, c, after, after.(operations := after.operations[i := op]))
  {
    forall k: nat | k < |after.operations| && k != i
      ensures MayPlanOperation(views, c, after.operations, k, after.operations[k])
    {}
  }

  lemma PlannedWithoutColumns(views: set<View>, c: Context, ops: seq<Operation>, i: nat, planned: Operation)
    requires i < |ops| && WellFormedOperation(ops[i]) && MayPlanOperation(views, c, ops, i, planned)
    ensures planned == ops[i]
  {
    hide IsCovered;
    if planned.BasicGraphPattern? && ops[i].BasicGraphPattern? {
      assert planned.triples == ops[i].triples;
    }
  }

  lemma PlannedWithOneColumn(views: set<View>, c: Context, ops: seq<Operation>, i: nat, k: Option<nat>, planned: Operation)
    requires i < |ops| && ops[i].BasicGraphPattern? && MayPlanOperation(views, c, ops, i, planned)
    requires forall l: nat | l < |ops[i].triples| && Some(l) != k :: ops[i].triples[l].additionalScanColumns == []
    requires k.Some? ==> k.value < |ops[i].triples| && ops[i].triples[k.value].additionalScanColumns != []
    ensures planned == ops[i]
            || (k.Some? && !ColumnsKept(views, c, ops, i)
                && planned == BasicGraphPattern(ops[i].triples[k.value := WithoutColumns(ops[i].triples[k.value])]))
  {
    hide IsCovered;
    var ts := ops[i].triples;
    if k.None? || planned.triples[k.value] == ts[k.value] {
      assert planned.triples == ts;
    } else {
      assert planned.triples == ts[k.value := WithoutColumns(ts[k.value])];
    }
  }

  ghost predicate PlanBinds(c: Context, planned: GraphPattern, i: nat, v: Var) {
    i < |planned.operations| && planned.operations[i].BasicGraphPattern? && v in VarsOf(c, planned.operations[i].triples)
  }

  /** Every plan of the triples binds the predicate variable if and only if the pattern is available and no view
      covers the triple that was chosen. A plan that does not bind it is that of the query in which the triple has
      only been erased. */
  lemma BindsPredicateIff(views: set<View>, d: Data, c: Context, root: GraphPattern, i: nat, j: nat, tuple: PatternTrickTuple,
                          after: GraphPattern)
    requires WellFormed(root) && IsPosition(root, i, j) && RewrittenPattern(root, i, j, tuple, after)
    requires tuple.predicate' !in VarsOf(c, Without(root.operations[i].triples, j))
    ensures (forall planned | MayPlan(views, c, after, planned) :: PlanBinds(c, planned, i, tuple.predicate'))
       <==> PatternAvailable(Without(root.operations[i].triples, j), tuple.subject) && ColumnsKept(views, c, after.operations, i)
    ensures forall planned, m | MayPlan(views, c, after, planned) && !PlanBinds(c, planned, i, tuple.predicate') ::
              OwnSolution(d, c, planned.operations[i], m) <==> OwnSolution(d, c, Erased(root, i, j).operations[i], m)
  {
    var before := Without(root.operations[i].triples, j);
    MayPlanRewrittenIff(views, c, root, i, j, tuple, after, after);
    MayPlanRewrittenIff(views, c, root, i, j, tuple, after, Erased(root, i, j));
    ScansBindPredicateIff(d, c, tuple, before, after.operations[i].triples, map[]);
    hide OwnSolution, VarsOf, MayPlan, ColumnsKept, PatternAvailable, RewrittenTriples, WellFormed;
    forall planned, m | MayPlan(views, c, after, planned) && !PlanBinds(c, planned, i, tuple.predicate')
      ensures OwnSolution(d, c, planned.operations[i], m) <==> OwnSolution(d, c, BasicGraphPattern(before), m)
    {
      MayPlanRewrittenIff(views, c, root, i, j, tuple, after, planned);
      ScansBindPredicateIff(d, c, tuple, before, after.operations[i].triples, m);
    }
    forall planned | MayPlan(views, c, after, planned)
      ensures planned == after || (planned == Erased(root, i, j) && !ColumnsKept(views, c, after.operations, i))
    {
      MayPlanRewrittenIff(views, c, root, i, j, tuple, after, planned);
    }
    assert !PlanBinds(c, Erased(root, i, j), i, tuple.predicate');
  }

  lemma HasPatternHolds(d: Data, c: Context, tuple: PatternTrickTuple, m: Mapping)
    requires PatternsStored(d) && c.graphVariable.None?
    ensures TripleVars(c, HasPatternTriple(tuple)) == {tuple.subject} + {tuple.predicate'}
    ensures TripleHolds(d, c, HasPatternTriple(tuple), m) <==> Delivers(d, c, tuple, true, m)
  {
    var t := HasPatternTriple(tuple);
    assert KindOf(t) == InternalScan && TripleVars(c, t) == {tuple.subject} + {tuple.predicate'};
    if tuple.subject in m && tuple.predicate' in m {
      var s, k := m[tuple.subject], m[tuple.predicate'];
      StoredPattern(d, c, s, k, m);
    }
  }

  lemma StoredPattern(d: Data, c: Context, s: Id, k: Id, m: Mapping)
    requires PatternsStored(d) && c.graphVariable.None?
    ensures Triple(s, d.hasPatternIri, k) in Scanned(d, c, d.internalQuads, m)
       <==> k == d.patternOf(s) != NO_PATTERN && StoredPatternsActive(d, c)
  {
    if k == d.patternOf(s) != NO_PATTERN && StoredPatternsActive(d, c) {
      var q := Quad(s, d.hasPatternIri, k, d.internalGraph);
      assert q in d.internalQuads;
      assert Triple(q.s, q.p, q.o) in Scanned(d, c, d.internalQuads, m);
    }
    if Triple(s, d.hasPatternIri, k) in Scanned(d, c, d.internalQuads, m) {
      var q :| q in d.internalQuads && GetActiveGraphs(c, d.defaultGraph).IsGraphAllowed(q.g)
               && Triple(q.s, q.p, q.o) == Triple(s, d.hasPatternIri, k);
      assert q == Quad(s, d.hasPatternIri, k, q.g);
    }
  }

  /** After: the same base solutions, extended by the patterns of the subjects. */
  lemma RewrittenMeaning(d: Data, c: Context, root: GraphPattern, i: nat, j: nat, tuple: PatternTrickTuple, vars: set<Var>,
                         after: GraphPattern, m: Mapping)
    requires PatternsStored(d) && c.graphVariable.None?
    requires IsPosition(root, i, j) && Isolated(root, i, j, tuple.subject, vars) && tuple.predicate' in vars
    requires RewrittenPattern(root, i, j, tuple, after)
    requires PatternAvailable(Without(root.operations[i].triples, j), tuple.subject)
    ensures var ts := Without(root.operations[i].triples, j);
            IsSolution(d, c, after, m)
            <==> tuple.predicate' in m
                 && BaseSolution(d, c, SurroundingsOf(root, i), ts, tuple.subject, m - {tuple.predicate'})
                 && Delivers(d, c, tuple, OwnTripleNeeded(tuple, ts), m)
  {
    var s, p := tuple.subject, tuple.predicate';
    var ts := Without(root.operations[i].triples, j);
    var own := OwnTripleNeeded(tuple, ts);
    assert SurroundingsOf(after, i) == SurroundingsOf(root, i);
    assert Separate(SurroundingsOf(after, i), {p});
    VarsAtTopLevel(c, ts, {p});
    hide Separate, OwnSolution, IsSolution, BaseSolution, SurroundingsOf, Base, VarsOf, TripleVars, RewrittenTriples,
         OwnTripleNeeded, PatternAvailable, PatternsStored, StoredPatternsActive, AllTripleVars;
    var condition := m => Delivers(d, c, tuple, own, m);
    forall n {:trigger OwnSolution(d, c, after.operations[i], n)}
      ensures OwnSolution(d, c, after.operations[i], n) <==> BaseAnd(d, c, ts, s, {p}, condition, n)
    {
      RewrittenTriplesMeaning(d, c, tuple, ts, after.operations[i].triples, n);
    }
    SolutionIff(d, c, after, i, ts, s, {p}, condition, m);
  }
}
