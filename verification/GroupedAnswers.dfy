/**
 What a query with GROUP BY and COUNT(DISTINCT ..) asks for, and what this means for a triple of the pattern trick.
 */
module GroupedAnswers {
  import opened Tables
  import opened Datasets
  import opened GraphPatterns
  import opened PatternFrames
  import opened PatternTrickMeaning
  import opened CheckUsePatternTrick
  import opened PatternTrick

  // ---- Specification ------------------------------------------------------------------------------------

  function KeyOf(m: Mapping, v: Var): Id {
    if v in m then m[v] else UNDEF
  }

  /** The solution belongs to the group of `key`. */
  ghost predicate InGroup(d: Data, c: Context, root: GraphPattern, groupBy: Var, key: Id, m: Mapping) {
    IsSolution(d, c, root, m) && KeyOf(m, groupBy) == key
  }

  ghost predicate HasGroup(d: Data, c: Context, root: GraphPattern, groupBy: Var, key: Id) {
    exists m :: InGroup(d, c, root, groupBy, key, m)
  }

  /** Some solution of the group binds the variable to `x`. */
  ghost predicate HasValue(d: Data, c: Context, root: GraphPattern, groupBy: Var, key: Id, v: Var, x: Id) {
    exists m :: InGroup(d, c, root, groupBy, key, m) && v in m && m[v] == x
  }

  ghost predicate IsCountOf(d: Data, c: Context, root: GraphPattern, groupBy: Var, key: Id, v: Var, n: nat) {
    exists values: set<Id> :: n == |values| && AreValues(d, c, root, groupBy, key, v, values)
  }

  ghost predicate AreValues(d: Data, c: Context, root: GraphPattern, groupBy: Var, key: Id, v: Var, values: set<Id>) {
    forall x :: x in values <==> HasValue(d, c, root, groupBy, key, v, x)
  }

  ghost predicate HasKey(rows: seq<(Id, nat)>, key: Id) {
    exists n :: (key, n) in rows
  }

  ghost predicate HasKeysOnce(rows: seq<(Id, nat)>) {
    forall i, j | 0 <= i < j < |rows| :: rows[i].0 != rows[j].0
  }

  /** One row for each value of the variable of the GROUP BY over the solutions of the pattern. If there is an alias,
      it is a COUNT(DISTINCT ..), and the row has the number of distinct values of its variable in the group. */
  ghost predicate AnswersQuery(d: Data, c: Context, root: GraphPattern, groupByVariables: seq<Var>,
                               aliases: seq<Option<CountedVariable>>, rows: seq<(Id, nat)>)
  {
    && |groupByVariables| == 1 && HasKeysOnce(rows)
    && (forall key :: HasKey(rows, key) <==> HasGroup(d, c, root, groupByVariables[0], key))
    && forall a | a in aliases :: a.Some? && a.value.isDistinct && Counts(d, c, root, groupByVariables[0], a.value.variable, rows)
  }

  ghost predicate Counts(d: Data, c: Context, root: GraphPattern, groupBy: Var, v: Var, rows: seq<(Id, nat)>) {
    forall key, n | (key, n) in rows :: IsCountOf(d, c, root, groupBy, key, v, n)
  }

  // ---- The groups of a query with a triple of the pattern trick ---------------------------------------------

  /** The query groups by the predicate and counts at most the distinct subjects. */
  ghost predicate Asks(groupByVariables: seq<Var>, aliases: seq<Option<CountedVariable>>, tuple: PatternTrickTuple) {
    && groupByVariables == [tuple.predicate']
    && (aliases == [] || aliases == [Some(CountedVariable(tuple.subject, true))])
  }

  /** `counted` is what the aliases count, if there are any. */
  ghost predicate IsCounted(aliases: seq<Option<CountedVariable>>, counted: Option<CountedVariable>) {
    if aliases == [] then counted == None else aliases == [counted] && counted.Some?
  }

  lemma SuitableAsks(root: GraphPattern, i: nat, j: nat, groupBy: Var, aliases: seq<Option<CountedVariable>>,
                     counted: Option<CountedVariable>, tuple: PatternTrickTuple)
    requires IsPosition(root, i, j) && SuitableAt(root, i, j, groupBy, counted) == Some(tuple) && IsCounted(aliases, counted)
    ensures Asks([groupBy], aliases, tuple)
  {
    SuitableIff(root, i, j, groupBy, counted, tuple);
  }

  lemma SolutionsBindBoth(d: Data, c: Context, root: GraphPattern, i: nat, j: nat, tuple: PatternTrickTuple, m: Mapping)
    requires c.graphVariable.None? && IsPosition(root, i, j) && IsTrickTriple(root, i, j, tuple) && IsSolution(d, c, root, m)
    ensures tuple.subject in m && tuple.predicate' in m
  {
    var t := root.operations[i].triples[j];
    OriginalMeaning(d, c, root, i, j, tuple.subject, Others(t), m);
    assert TripleHolds(d, c, t, m) && TripleVars(c, t) <= m.Keys;
    assert Variable(tuple.subject) == t.s;
  }

  lemma ValuesArePairs(d: Data, c: Context, root: GraphPattern, i: nat, j: nat, tuple: PatternTrickTuple, p: Id)
    requires c.graphVariable.None? && IsPosition(root, i, j) && IsTrickTriple(root, i, j, tuple)
    ensures forall x :: HasValue(d, c, root, tuple.predicate', p, tuple.subject, x) <==> Pairs(d, c, root, tuple, x, p)
    ensures HasGroup(d, c, root, tuple.predicate', p) <==> exists x :: Pairs(d, c, root, tuple, x, p)
  {
    hide IsSolution, IsTrickTriple;
    forall m | IsSolution(d, c, root, m)
      ensures tuple.subject in m && tuple.predicate' in m
    {
      SolutionsBindBoth(d, c, root, i, j, tuple, m);
    }
    forall x
      ensures HasValue(d, c, root, tuple.predicate', p, tuple.subject, x) <==> Pairs(d, c, root, tuple, x, p)
    {
      if HasValue(d, c, root, tuple.predicate', p, tuple.subject, x) {
        var m :| InGroup(d, c, root, tuple.predicate', p, m) && tuple.subject in m && m[tuple.subject] == x;
        assert BindsBoth(tuple, m, x, p);
      }
      if Pairs(d, c, root, tuple, x, p) {
        var m :| IsSolution(d, c, root, m) && BindsBoth(tuple, m, x, p);
        assert InGroup(d, c, root, tuple.predicate', p, m);
      }
    }
    if HasGroup(d, c, root, tuple.predicate', p) {
      var m :| InGroup(d, c, root, tuple.predicate', p, m);
      assert HasValue(d, c, root, tuple.predicate', p, tuple.subject, m[tuple.subject]);
    }
    if x :| Pairs(d, c, root, tuple, x, p) {
      var m :| IsSolution(d, c, root, m) && BindsBoth(tuple, m, x, p);
      assert InGroup(d, c, root, tuple.predicate', p, m);
    }
  }

  /** The distinct values of the subject variable in the group of `p`. */
  ghost function DistinctSubjects(d: Data, c: Context, root: GraphPattern, tuple: PatternTrickTuple, p: Id): set<Id> {
    set q | q in d.quads && Pairs(d, c, root, tuple, q.s, p) :: q.s
  }

  /** All subjects in solutions of the query have quads. */
  lemma SubjectsIff(d: Data, c: Context, root: GraphPattern, i: nat, j: nat, tuple: PatternTrickTuple, p: Id, x: Id)
    requires c.graphVariable.None? && PatternsBuilt(d) && IsPosition(root, i, j) && IsTrickTriple(root, i, j, tuple)
    ensures x in DistinctSubjects(d, c, root, tuple, p) <==> Pairs(d, c, root, tuple, x, p)
  {
    if Pairs(d, c, root, tuple, x, p) {
      hide IsTrickTriple, Pairs, BaseSubject;
      OriginalPairs(d, c, root, i, j, tuple, x, p);
      if HasTriple(d, c, x, p) {
        TripleIsQuad(d, c, x, p);
      }
      assert HasQuad(d, x, p);
      var o, g :| Quad(x, p, o, g) in d.quads;
      var q := Quad(x, p, o, g);
      assert q.s == x;
    }
  }

  /** The rows are the groups of the predicates, each with the number of its distinct subjects. */
  ghost predicate AreGroups(d: Data, c: Context, root: GraphPattern, tuple: PatternTrickTuple, rows: seq<(Id, nat)>) {
    && HasKeysOnce(rows)
    && forall p: Id, n: nat :: (p, n) in rows <==> n == |DistinctSubjects(d, c, root, tuple, p)| > 0
  }

  /** The rows have the predicates, with any numbers. */
  ghost predicate HavePredicates(d: Data, c: Context, root: GraphPattern, tuple: PatternTrickTuple, rows: seq<(Id, nat)>) {
    HasKeysOnce(rows) && forall p: Id :: HasKey(rows, p) <==> DistinctSubjects(d, c, root, tuple, p) != {}
  }

  /** For one predicate: it is a group if it has subjects, and their number is the count. */
  lemma GroupOf(d: Data, c: Context, root: GraphPattern, i: nat, j: nat, tuple: PatternTrickTuple, p: Id)
    requires c.graphVariable.None? && PatternsBuilt(d) && IsPosition(root, i, j) && IsTrickTriple(root, i, j, tuple)
    ensures HasGroup(d, c, root, tuple.predicate', p) <==> DistinctSubjects(d, c, root, tuple, p) != {}
    ensures forall n: nat :: IsCountOf(d, c, root, tuple.predicate', p, tuple.subject, n)
                       <==> n == |DistinctSubjects(d, c, root, tuple, p)|
  {
    var subjects := DistinctSubjects(d, c, root, tuple, p);
    ValuesArePairs(d, c, root, i, j, tuple, p);
    forall x {
      SubjectsIff(d, c, root, i, j, tuple, p, x);
    }
    hide DistinctSubjects, HasValue, HasGroup, Pairs, IsTrickTriple, PatternsBuilt;
    assert AreValues(d, c, root, tuple.predicate', p, tuple.subject, subjects);
    forall n: nat
      ensures IsCountOf(d, c, root, tuple.predicate', p, tuple.subject, n) <==> n == |subjects|
    {
      if IsCountOf(d, c, root, tuple.predicate', p, tuple.subject, n) {
        var values: set<Id> :| n == |values| && AreValues(d, c, root, tuple.predicate', p, tuple.subject, values);
        assert values == subjects;
      }
    }
    if HasGroup(d, c, root, tuple.predicate', p) {
      var x :| Pairs(d, c, root, tuple, x, p);
      assert x in subjects;
    }
    if subjects != {} {
      var x :| x in subjects;
      assert Pairs(d, c, root, tuple, x, p);
    }
  }

  /** What the query asks for are the predicates, and with a COUNT the numbers of their subjects. */
  lemma AnswersQueryIff(d: Data, c: Context, root: GraphPattern, i: nat, j: nat, tuple: PatternTrickTuple,
                        groupByVariables: seq<Var>, aliases: seq<Option<CountedVariable>>, rows: seq<(Id, nat)>)
    requires c.graphVariable.None? && PatternsBuilt(d) && IsPosition(root, i, j) && IsTrickTriple(root, i, j, tuple)
    requires Asks(groupByVariables, aliases, tuple)
    ensures AnswersQuery(d, c, root, groupByVariables, aliases, rows)
       <==> if aliases == [] then HavePredicates(d, c, root, tuple, rows) else AreGroups(d, c, root, tuple, rows)
  {
    forall p {
      GroupOf(d, c, root, i, j, tuple, p);
    }
    hide DistinctSubjects, IsCountOf, HasGroup, IsTrickTriple, PatternsBuilt;
    if aliases != [] {
      assert aliases[0] in aliases;
      NumberedGroups(d, c, root, tuple, rows);
    }
  }

  /** Rows that have the predicates with the right numbers, said in two ways. */
  lemma NumberedGroups(d: Data, c: Context, root: GraphPattern, tuple: PatternTrickTuple, rows: seq<(Id, nat)>)
    ensures AreGroups(d, c, root, tuple, rows)
       <==> && HavePredicates(d, c, root, tuple, rows)
            && forall p: Id, n: nat | (p, n) in rows :: n == |DistinctSubjects(d, c, root, tuple, p)|
  {
    hide DistinctSubjects;
    if AreGroups(d, c, root, tuple, rows) {
      forall p: Id
        ensures HasKey(rows, p) <==> DistinctSubjects(d, c, root, tuple, p) != {}
      {
        assert (p, |DistinctSubjects(d, c, root, tuple, p)|) in rows <==> |DistinctSubjects(d, c, root, tuple, p)| > 0;
      }
    }
    if HavePredicates(d, c, root, tuple, rows)
       && forall p: Id, n: nat | (p, n) in rows :: n == |DistinctSubjects(d, c, root, tuple, p)| {
      forall p: Id, n: nat
        ensures (p, n) in rows <==> n == |DistinctSubjects(d, c, root, tuple, p)| > 0
      {
        assert (p, n) in rows ==> HasKey(rows, p);
        if DistinctSubjects(d, c, root, tuple, p) != {} {
          assert HasKey(rows, p);
        }
      }
    }
  }

  // ---- The datasets for which the predicates are right ------------------------------------------------------

  /** What the active graphs have to fulfil if nothing is counted: each predicate of a subject is that of some subject
      in an active graph. */
  ghost predicate KeysAgree(d: Data, c: Context, root: GraphPattern, i: nat, j: nat, tuple: PatternTrickTuple)
    requires c.graphVariable.None? && IsPosition(root, i, j)
  {
    forall p: Id :: KeyAgrees(d, c, root, i, j, tuple, p)
  }

  ghost predicate KeyAgreesFor(d: Data, c: Context, root: GraphPattern, i: nat, j: nat, tuple: PatternTrickTuple, x: Id, p: Id)
    requires c.graphVariable.None? && IsPosition(root, i, j)
  {
    var t := root.operations[i].triples[j];
    if Own(root, i, j, tuple) && !StoredPatternsActive(d, c) then !Gives(d, c, t, x, p)
    else t.p.HasPredicate? || (HasQuad(d, x, p) ==> SomeSubjectHas(d, c, root, i, j, tuple, p))
  }

  ghost predicate SomeSubjectHas(d: Data, c: Context, root: GraphPattern, i: nat, j: nat, tuple: PatternTrickTuple, p: Id)
    requires c.graphVariable.None? && IsPosition(root, i, j)
  {
    exists y :: BaseSubject(d, c, RestOf(root, i, j, tuple.subject), y) && HasTriple(d, c, y, p)
  }

  ghost predicate SameKey(d: Data, c: Context, root: GraphPattern, tuple: PatternTrickTuple, after: GraphPattern, p: Id) {
    (exists x :: Pairs(d, c, root, tuple, x, p)) <==> (exists x :: PairsByTrick(d, c, after, tuple, x, p))
  }

  ghost predicate KeyAgrees(d: Data, c: Context, root: GraphPattern, i: nat, j: nat, tuple: PatternTrickTuple, p: Id)
    requires c.graphVariable.None? && IsPosition(root, i, j)
  {
    forall x: Id | BaseSubject(d, c, RestOf(root, i, j, tuple.subject), x) :: KeyAgreesFor(d, c, root, i, j, tuple, x, p)
  }

  lemma SameKeyIff(d: Data, c: Context, root: GraphPattern, i: nat, j: nat, tuple: PatternTrickTuple, after: GraphPattern, p: Id)
    requires c.graphVariable.None? && PatternsBuilt(d)
    requires IsPosition(root, i, j) && IsTrickTriple(root, i, j, tuple) && Available(root, i, j, tuple)
    requires RewrittenPattern(root, i, j, tuple, after)
    ensures SameKey(d, c, root, tuple, after, p) <==> KeyAgrees(d, c, root, i, j, tuple, p)
  {
    var r, t := RestOf(root, i, j, tuple.subject), root.operations[i].triples[j];
    hide IsTrickTriple, Available, RewrittenPattern, PatternsBuilt, Pairs, PairsByTrick, BaseSubject, Own, HasQuad, HasTriple,
         Gives, StoredPatternsActive, RestOf;
    forall x: Id
      ensures PairsByTrick(d, c, after, tuple, x, p)
         <==> BaseSubject(d, c, r, x) && HasQuad(d, x, p) && (Own(root, i, j, tuple) ==> StoredPatternsActive(d, c))
      ensures Pairs(d, c, root, tuple, x, p) <==> BaseSubject(d, c, r, x) && Gives(d, c, t, x, p)
      ensures Gives(d, c, t, x, p) ==> HasQuad(d, x, p)
      ensures if t.p.HasPredicate? then HasQuad(d, x, p) ==> Gives(d, c, t, x, p) else Gives(d, c, t, x, p) <==> HasTriple(d, c, x, p)
    {
      TrickPairs(d, c, root, i, j, tuple, after, x, p);
      OriginalPairs(d, c, root, i, j, tuple, x, p);
      GivesIsQuad(d, c, t, x, p);
    }
  }

  /** The rewriting finds the same predicates if and only if the active graphs agree in this way. */
  lemma SameKeysIff(d: Data, c: Context, root: GraphPattern, i: nat, j: nat, tuple: PatternTrickTuple, after: GraphPattern)
    requires c.graphVariable.None? && PatternsBuilt(d)
    requires IsPosition(root, i, j) && IsTrickTriple(root, i, j, tuple) && Available(root, i, j, tuple)
    requires RewrittenPattern(root, i, j, tuple, after)
    ensures (forall p: Id :: SameKey(d, c, root, tuple, after, p)) <==> KeysAgree(d, c, root, i, j, tuple)
  {
    hide IsTrickTriple, Available, RewrittenPattern, PatternsBuilt, SameKey, KeyAgrees;
    forall p: Id
      ensures SameKey(d, c, root, tuple, after, p) <==> KeyAgrees(d, c, root, i, j, tuple, p)
    {
      SameKeyIff(d, c, root, i, j, tuple, after, p);
    }
  }

  lemma GivesIsQuad(d: Data, c: Context, t: SparqlTriple, x: Id, p: Id)
    requires c.graphVariable.None? && PatternsBuilt(d)
    ensures Gives(d, c, t, x, p) ==> HasQuad(d, x, p)
    ensures if t.p.HasPredicate? then HasQuad(d, x, p) ==> Gives(d, c, t, x, p) else Gives(d, c, t, x, p) <==> HasTriple(d, c, x, p)
  {
    if HasTriple(d, c, x, p) {
      TripleIsQuad(d, c, x, p);
    }
  }
}
