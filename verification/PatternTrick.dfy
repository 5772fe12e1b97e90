/**
 The pattern trick as a whole: when counting the patterns of the rewritten query gives the counts that the
 original query asks for.
 */
module PatternTrick {
  import opened Tables
  import opened Datasets
  import opened GraphPatterns
  import opened PatternFrames
  import opened PatternTrickMeaning
  import opened CheckUsePatternTrick
  import Count = CountAvailablePredicates

  // ---- Data -------------------------------------------------------------------------------------------

  /** Some graph has a triple with this subject and predicate. */
  ghost predicate HasQuad(d: Data, x: Id, p: Id) {
    exists o, g :: Quad(x, p, o, g) in d.quads
  }

  /** One of the active graphs has such a triple. */
  ghost predicate HasTriple(d: Data, c: Context, x: Id, p: Id)
    requires c.graphVariable.None?
  {
    exists o :: Triple(x, p, o) in Scanned(d, c, d.quads, map[])
  }

  /** The patterns are those of the index: each pattern lists the predicates of its subjects in all graphs,
      and only ids without triples have no pattern. */
  ghost predicate PatternsBuilt(d: Data) {
    && |d.patterns| <= NO_PATTERN && Count.Distinct(d.patterns) && PatternsStored(d)
    && (forall x, p :: HasQuad(d, x, p) <==> Lists(d, d.patternOf(x), p))
    && forall x :: d.patternOf(x) < |d.patterns| || d.patternOf(x) == NO_PATTERN
  }

  lemma TripleIsQuad(d: Data, c: Context, x: Id, p: Id)
    requires c.graphVariable.None? && HasTriple(d, c, x, p)
    ensures HasQuad(d, x, p)
  {
    var o :| Triple(x, p, o) in Scanned(d, c, d.quads, map[]);
    var q :| q in d.quads && Triple(q.s, q.p, q.o) == Triple(x, p, o);
    assert q == Quad(x, p, o, q.g);
  }

  /** Without FROM clauses, all triples are active. */
  lemma QuadIsTriple(d: Data, x: Id, p: Id)
    requires HasQuad(d, x, p)
    ensures HasTriple(d, TopLevel(UNCONSTRAINED), x, p)
  {
    var o, g :| Quad(x, p, o, g) in d.quads;
    var q := Quad(x, p, o, g);
    assert Triple(q.s, q.p, q.o) in Scanned(d, TopLevel(UNCONSTRAINED), d.quads, map[]);
  }

  // ---- Pairs of subjects and predicates -----------------------------------------------------------------

  /** In one of the solutions, the subject variable is `x` and the predicate variable is `p`. */
  ghost predicate Pairs(d: Data, c: Context, root: GraphPattern, tuple: PatternTrickTuple, x: Id, p: Id) {
    exists m :: IsSolution(d, c, root, m) && BindsBoth(tuple, m, x, p)
  }

  ghost predicate BindsBoth(tuple: PatternTrickTuple, m: Mapping, x: Id, p: Id) {
    && tuple.subject in m && m[tuple.subject] == x
    && tuple.predicate' in m && m[tuple.predicate'] == p
  }

  /** The part of a pattern that is left when one of its triples is taken away. */
  datatype Rest = Rest(surroundings: Surroundings, triples: seq<SparqlTriple>, s: Var)

  function RestOf(root: GraphPattern, i: nat, j: nat, s: Var): Rest
    requires IsPosition(root, i, j)
  {
    Rest(SurroundingsOf(root, i), Without(root.operations[i].triples, j), s)
  }

  ghost predicate RestSolution(d: Data, c: Context, r: Rest, m: Mapping) {
    BaseSolution(d, c, r.surroundings, r.triples, r.s, m)
  }

  /** Some solution of the rest has `x` as the value of the subject variable. */
  ghost predicate BaseSubject(d: Data, c: Context, r: Rest, x: Id) {
    exists m :: RestSolution(d, c, r, m) && r.s in m && m[r.s] == x
  }

  ghost predicate Avoids(c: Context, r: Rest, vars: set<Var>) {
    Separate(r.surroundings, vars) && r.s !in vars && VarsOf(c, r.triples) !! vars && GraphVars(c) !! vars
  }

  lemma RestSolutionAvoids(d: Data, c: Context, r: Rest, vars: set<Var>, m: Mapping)
    requires RestSolution(d, c, r, m) && Avoids(c, r, vars)
    ensures m.Keys !! vars
  {
    var k, n :| Base(d, c, r.triples, r.s, n) && Through(d, c, r.surroundings, k, n, m);
    RunAvoids(d, c, r.surroundings.before, vars, map[], k);
    RunAvoids(d, c, r.surroundings.after, vars, k + n, m);
  }

  /** Every solution of the rest can be extended by the bindings of other variables. */
  lemma AddBindings(d: Data, c: Context, r: Rest, x: Id, e: Mapping) returns (m: Mapping)
    requires BaseSubject(d, c, r, x) && Avoids(c, r, e.Keys)
    ensures RestSolution(d, c, r, m - e.Keys) && r.s in m && m[r.s] == x && Extends(m, e)
  {
    var n :| RestSolution(d, c, r, n) && r.s in n && n[r.s] == x;
    RestSolutionAvoids(d, c, r, e.Keys, n);
    m := n + e;
    AddedIff(n, e, m);
  }

  // ---- The original query -----------------------------------------------------------------------------

  /** The triple of the pattern trick gives the subject the predicate: `ql:has-predicate` looks it up in the
      patterns, the triple of three variables in the active graphs. */
  ghost predicate Gives(d: Data, c: Context, t: SparqlTriple, x: Id, p: Id)
    requires c.graphVariable.None?
  {
    if t.p.HasPredicate? then Lists(d, d.patternOf(x), p) else HasTriple(d, c, x, p)
  }

  lemma TripleHas(d: Data, c: Context, t: SparqlTriple, m: Mapping)
    requires c.graphVariable.None? && PatternTrickDataIfTripleIsPossible(t).Some? && TripleHolds(d, c, t, m)
    ensures var data := PatternTrickDataIfTripleIsPossible(t).value;
            && data.allowedCountVariable in m && data.predicateVariable in m
            && Gives(d, c, t, m[data.allowedCountVariable], m[data.predicateVariable])
  {
    if !t.p.HasPredicate? {
      assert KindOf(t) == OrdinaryScan;
      assert Scanned(d, c, d.quads, m) == Scanned(d, c, d.quads, map[]);
    }
  }

  /** The values of the triple's own variables for a subject `x` that has the predicate `p`. */
  lemma TripleWitness(d: Data, c: Context, t: SparqlTriple, x: Id, p: Id) returns (e: Mapping)
    requires c.graphVariable.None? && PatternTrickDataIfTripleIsPossible(t).Some? && t.additionalScanColumns == []
    requires Gives(d, c, t, x, p)
    ensures var data := PatternTrickDataIfTripleIsPossible(t).value;
            && e.Keys == Others(t) && data.predicateVariable in e && e[data.predicateVariable] == p
            && forall m | data.allowedCountVariable in m && m[data.allowedCountVariable] == x && Extends(m, e) ::
                 TripleHolds(d, c, t, m)
  {
    var data := PatternTrickDataIfTripleIsPossible(t).value;
    assert ColumnVars(t) == {};
    if t.p.HasPredicate? {
      e := map[t.o.name := p];
    } else {
      var o :| Triple(x, p, o) in Scanned(d, c, d.quads, map[]);
      e := map[t.p.name := p, t.o.name := o];
      assert KindOf(t) == OrdinaryScan;
      forall m | data.allowedCountVariable in m && m[data.allowedCountVariable] == x && Extends(m, e)
        ensures TripleHolds(d, c, t, m)
      {
        assert Scanned(d, c, d.quads, m) == Scanned(d, c, d.quads, map[]);
        assert t.p.name in e && t.o.name in e;
      }
    }
  }

  /** What is needed of the triple at a position. */
  ghost predicate IsTrickTriple(root: GraphPattern, i: nat, j: nat, tuple: PatternTrickTuple)
    requires IsPosition(root, i, j)
  {
    var t := root.operations[i].triples[j];
    && t.additionalScanColumns == [] && PatternTrickDataIfTripleIsPossible(t).Some?
    && tuple == PatternTrickTuple(PatternTrickDataIfTripleIsPossible(t).value.allowedCountVariable,
                                  PatternTrickDataIfTripleIsPossible(t).value.predicateVariable)
    && Isolated(root, i, j, tuple.subject, Others(t)) && tuple.predicate' in Others(t)
  }

  /** No variable of the triple but the subject is the variable of a GRAPH clause. */
  ghost predicate NoGraphVariable(root: GraphPattern, i: nat, j: nat)
    requires IsPosition(root, i, j) && PatternTrickDataIfTripleIsPossible(root.operations[i].triples[j]).Some?
  {
    forall v | v in Others(root.operations[i].triples[j]) :: !IsGraphVariableInGraphPattern(v, root)
  }

  lemma SuitableIsTrickTriple(root: GraphPattern, i: nat, j: nat, groupBy: Var, counted: Option<CountedVariable>)
    requires WellFormed(root) && IsPosition(root, i, j) && SuitableAt(root, i, j, groupBy, counted).Some?
    requires NoGraphVariable(root, i, j)
    ensures IsTrickTriple(root, i, j, SuitableAt(root, i, j, groupBy, counted).value)
  {
    assert WellFormedOperation(root.operations[i]);
    assert root.operations[i].triples[j] in root.operations[i].triples;
    SuitableIsIsolatedIff(root, i, j, groupBy, counted);
  }

  /** The pairs of the original query: the subjects of the rest, each with its predicates. */
  lemma OriginalPairs(d: Data, c: Context, root: GraphPattern, i: nat, j: nat, tuple: PatternTrickTuple, x: Id, p: Id)
    requires c.graphVariable.None? && IsPosition(root, i, j) && IsTrickTriple(root, i, j, tuple)
    ensures Pairs(d, c, root, tuple, x, p)
       <==> BaseSubject(d, c, RestOf(root, i, j, tuple.subject), x) && Gives(d, c, root.operations[i].triples[j], x, p)
  {
    var t := root.operations[i].triples[j];
    var r, vars := RestOf(root, i, j, tuple.subject), Others(t);
    VarsAtTopLevel(c, r.triples, vars);
    hide IsSolution, BaseSolution, SurroundingsOf, TripleHolds, Separate, VarsOf, TripleVars, AllTripleVars, OperationVars,
         PatternTrickDataIfTripleIsPossible, Gives;
    if Pairs(d, c, root, tuple, x, p) {
      var m :| IsSolution(d, c, root, m) && BindsBoth(tuple, m, x, p);
      OriginalMeaning(d, c, root, i, j, tuple.subject, vars, m);
      assert RestSolution(d, c, r, m - vars) && (m - vars)[r.s] == x;
      TripleHas(d, c, t, m);
    }
    if BaseSubject(d, c, r, x) && Gives(d, c, t, x, p) {
      var e := TripleWitness(d, c, t, x, p);
      var m := AddBindings(d, c, r, x, e);
      OriginalMeaning(d, c, root, i, j, tuple.subject, vars, m);
      assert BindsBoth(tuple, m, x, p);
    }
  }

  // ---- The rewritten query ------------------------------------------------------------------------------

  ghost predicate Own(root: GraphPattern, i: nat, j: nat, tuple: PatternTrickTuple)
    requires IsPosition(root, i, j)
  {
    OwnTripleNeeded(tuple, Without(root.operations[i].triples, j))
  }

  /** The triple that gets the column, if any, is an ordinary scan. */
  ghost predicate Available(root: GraphPattern, i: nat, j: nat, tuple: PatternTrickTuple)
    requires IsPosition(root, i, j)
  {
    PatternAvailable(Without(root.operations[i].triples, j), tuple.subject)
  }

  /** The pairs of the rewritten query: the same subjects, each with its pattern. */
  lemma RewrittenPairs(d: Data, c: Context, root: GraphPattern, i: nat, j: nat, tuple: PatternTrickTuple,
                       after: GraphPattern, x: Id, k: Id)
    requires c.graphVariable.None? && PatternsStored(d)
    requires IsPosition(root, i, j) && IsTrickTriple(root, i, j, tuple) && Available(root, i, j, tuple)
    requires RewrittenPattern(root, i, j, tuple, after)
    ensures Pairs(d, c, after, tuple, x, k)
       <==> BaseSubject(d, c, RestOf(root, i, j, tuple.subject), x) && k == d.patternOf(x)
            && (Own(root, i, j, tuple) ==> k != NO_PATTERN && StoredPatternsActive(d, c))
  {
    var s, p := tuple.subject, tuple.predicate';
    var vars := Others(root.operations[i].triples[j]);
    var r := RestOf(root, i, j, s);
    VarsAtTopLevel(c, r.triples, vars);
    assert Avoids(c, r, {p});
    hide IsSolution, BaseSolution, SurroundingsOf, Separate, VarsOf, TripleVars, AllTripleVars, OperationVars,
         PatternTrickDataIfTripleIsPossible, RewrittenPattern, OwnTripleNeeded, PatternAvailable, StoredPatternsActive,
         PatternsStored;
    if Pairs(d, c, after, tuple, x, k) {
      var m :| IsSolution(d, c, after, m) && BindsBoth(tuple, m, x, k);
      RewrittenMeaning(d, c, root, i, j, tuple, vars, after, m);
      assert RestSolution(d, c, r, m - {p}) && (m - {p})[r.s] == x;
    }
    if BaseSubject(d, c, r, x) && k == d.patternOf(x)
       && (Own(root, i, j, tuple) ==> k != NO_PATTERN && StoredPatternsActive(d, c)) {
      var e := map[p := k];
      assert e.Keys == {p};
      var m := AddBindings(d, c, r, x, e);
      RewrittenMeaning(d, c, root, i, j, tuple, vars, after, m);
      assert BindsBoth(tuple, m, x, k);
    }
  }

  /** The pairs that counting the patterns of the rewritten query amounts to. */
  ghost predicate PairsByTrick(d: Data, c: Context, after: GraphPattern, tuple: PatternTrickTuple, x: Id, p: Id) {
    exists k :: Pairs(d, c, after, tuple, x, k) && Lists(d, k, p)
  }

  lemma TrickPairs(d: Data, c: Context, root: GraphPattern, i: nat, j: nat, tuple: PatternTrickTuple, after: GraphPattern,
                   x: Id, p: Id)
    requires c.graphVariable.None? && PatternsBuilt(d)
    requires IsPosition(root, i, j) && IsTrickTriple(root, i, j, tuple) && Available(root, i, j, tuple)
    requires RewrittenPattern(root, i, j, tuple, after)
    ensures PairsByTrick(d, c, after, tuple, x, p)
       <==> BaseSubject(d, c, RestOf(root, i, j, tuple.subject), x) && HasQuad(d, x, p)
            && (Own(root, i, j, tuple) ==> StoredPatternsActive(d, c))
  {
    hide IsTrickTriple, RewrittenPattern, Pairs, BaseSubject, Own, Available, StoredPatternsActive, HasQuad;
    if PairsByTrick(d, c, after, tuple, x, p) {
      var k :| Pairs(d, c, after, tuple, x, k) && Lists(d, k, p);
      RewrittenPairs(d, c, root, i, j, tuple, after, x, k);
    }
    RewrittenPairs(d, c, root, i, j, tuple, after, x, d.patternOf(x));
  }

  // ---- The datasets for which the trick is right ----------------------------------------------------------

  /** What the active graphs have to fulfil. A triple of its own needs the graph of the stored patterns; and
      since patterns do not know about graphs, every subject needs each of its predicates in an active graph,
      unless the query asks for `ql:has-predicate`, which does not know about graphs either. */
  ghost predicate DatasetAgrees(d: Data, c: Context, root: GraphPattern, i: nat, j: nat, tuple: PatternTrickTuple)
    requires c.graphVariable.None? && IsPosition(root, i, j)
  {
    forall x: Id, p: Id | BaseSubject(d, c, RestOf(root, i, j, tuple.subject), x) :: AgreesFor(d, c, root, i, j, tuple, x, p)
  }

  ghost predicate AgreesFor(d: Data, c: Context, root: GraphPattern, i: nat, j: nat, tuple: PatternTrickTuple, x: Id, p: Id)
    requires c.graphVariable.None? && IsPosition(root, i, j)
  {
    var t := root.operations[i].triples[j];
    if Own(root, i, j, tuple) && !StoredPatternsActive(d, c) then !Gives(d, c, t, x, p)
    else t.p.HasPredicate? || (HasQuad(d, x, p) ==> HasTriple(d, c, x, p))
  }

  ghost predicate SamePairs(d: Data, c: Context, root: GraphPattern, tuple: PatternTrickTuple, after: GraphPattern) {
    forall p: Id :: SamePairsFor(d, c, root, tuple, after, p)
  }

  ghost predicate SamePairsFor(d: Data, c: Context, root: GraphPattern, tuple: PatternTrickTuple, after: GraphPattern, p: Id) {
    forall x: Id :: Pairs(d, c, root, tuple, x, p) <==> PairsByTrick(d, c, after, tuple, x, p)
  }

  /** The trick errs in one direction only. */
  lemma PairsNested(d: Data, c: Context, root: GraphPattern, i: nat, j: nat, tuple: PatternTrickTuple, after: GraphPattern,
                    x: Id, p: Id)
    requires c.graphVariable.None? && PatternsBuilt(d)
    requires IsPosition(root, i, j) && IsTrickTriple(root, i, j, tuple) && Available(root, i, j, tuple)
    requires RewrittenPattern(root, i, j, tuple, after)
    ensures if Own(root, i, j, tuple) && !StoredPatternsActive(d, c) then !PairsByTrick(d, c, after, tuple, x, p)
            else Pairs(d, c, root, tuple, x, p) ==> PairsByTrick(d, c, after, tuple, x, p)
  {
    hide IsTrickTriple, RewrittenPattern, Pairs, PairsByTrick, BaseSubject, Own, Available, StoredPatternsActive;
    TrickPairs(d, c, root, i, j, tuple, after, x, p);
    OriginalPairs(d, c, root, i, j, tuple, x, p);
    if HasTriple(d, c, x, p) {
      TripleIsQuad(d, c, x, p);
    }
  }

  lemma SamePairIff(d: Data, c: Context, root: GraphPattern, i: nat, j: nat, tuple: PatternTrickTuple, after: GraphPattern,
                    x: Id, p: Id)
    requires c.graphVariable.None? && PatternsBuilt(d)
    requires IsPosition(root, i, j) && IsTrickTriple(root, i, j, tuple) && Available(root, i, j, tuple)
    requires RewrittenPattern(root, i, j, tuple, after)
    ensures (Pairs(d, c, root, tuple, x, p) <==> PairsByTrick(d, c, after, tuple, x, p))
       <==> (BaseSubject(d, c, RestOf(root, i, j, tuple.subject), x) ==> AgreesFor(d, c, root, i, j, tuple, x, p))
  {
    assert HasQuad(d, x, p) <==> Lists(d, d.patternOf(x), p);
    hide IsTrickTriple, RewrittenPattern, Pairs, PairsByTrick, BaseSubject, Own, Available, StoredPatternsActive, PatternsBuilt,
         HasQuad, Lists;
    TrickPairs(d, c, root, i, j, tuple, after, x, p);
    OriginalPairs(d, c, root, i, j, tuple, x, p);
    if HasTriple(d, c, x, p) {
      TripleIsQuad(d, c, x, p);
    }
  }

  /** The rewriting preserves which subjects and predicates belong together if and only if the active graphs
      agree with the patterns. */
  lemma SamePairsIff(d: Data, c: Context, root: GraphPattern, i: nat, j: nat, tuple: PatternTrickTuple, after: GraphPattern)
    requires c.graphVariable.None? && PatternsBuilt(d)
    requires IsPosition(root, i, j) && IsTrickTriple(root, i, j, tuple) && Available(root, i, j, tuple)
    requires RewrittenPattern(root, i, j, tuple, after)
    ensures SamePairs(d, c, root, tuple, after) <==> DatasetAgrees(d, c, root, i, j, tuple)
  {
    var r := RestOf(root, i, j, tuple.subject);
    hide IsTrickTriple, RewrittenPattern, Pairs, PairsByTrick, BaseSubject, Available, PatternsBuilt, AgreesFor;
    forall x: Id, p: Id
      ensures (Pairs(d, c, root, tuple, x, p) <==> PairsByTrick(d, c, after, tuple, x, p))
         <==> (BaseSubject(d, c, r, x) ==> AgreesFor(d, c, root, i, j, tuple, x, p))
    {
      SamePairIff(d, c, root, i, j, tuple, after, x, p);
    }
    if SamePairs(d, c, root, tuple, after) {
      forall x: Id, p: Id | BaseSubject(d, c, r, x)
        ensures AgreesFor(d, c, root, i, j, tuple, x, p)
      {
        assert SamePairsFor(d, c, root, tuple, after, p);
      }
    }
  }
}
