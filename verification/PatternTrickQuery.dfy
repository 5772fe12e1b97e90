/**
 Answering a query by the pattern trick, from the query to its groups.
 */
module PatternTrickQuery {
  import opened Tables
  import opened Datasets
  import opened GraphPatterns
  import opened PatternFrames
  import opened PatternTrickMeaning
  import opened MaterializedViews
  import opened CheckUsePatternTrick
  import opened PatternTrick
  import opened GroupedAnswers
  import Count = CountAvailablePredicates

  /** The result of a pattern. */
  datatype QueryResult = QueryResult(columnOf: map<Var, nat>, rows: seq<Row>)

  /** `Failed` is an exception. */
  datatype Answer = NotApplicable | Failed | Groups(rows: seq<(Id, nat)>)

  // ---- Results ----------------------------------------------------------------------------------------

  ghost predicate Shows(row: Row, columnOf: map<Var, nat>, m: Mapping) {
    forall v | v in columnOf :: columnOf[v] < |row| && row[columnOf[v]] == if v in m then m[v] else UNDEF
  }

  /** The plan of the pattern returns a row for each of its solutions, and a column for each of its variables. */
  ghost predicate IsResultOf(d: Data, c: Context, p: GraphPattern, r: QueryResult) {
    && (forall v :: v in r.columnOf <==> HasColumn(v, c, p))
    && (forall m | IsSolution(d, c, p, m) :: HasRowFor(r, m))
    && (forall i | 0 <= i < |r.rows| :: HasSolutionFor(d, c, p, r, i))
  }

  ghost predicate HasRowFor(r: QueryResult, m: Mapping) {
    exists i :: 0 <= i < |r.rows| && Shows(r.rows[i], r.columnOf, m)
  }

  ghost predicate HasSolutionFor(d: Data, c: Context, p: GraphPattern, r: QueryResult, i: nat)
    requires i < |r.rows|
  {
    exists m :: IsSolution(d, c, p, m) && Shows(r.rows[i], r.columnOf, m)
  }

  ghost predicate ColumnInRange(r: QueryResult, v: Var) {
    v in r.columnOf && forall i | 0 <= i < |r.rows| :: r.columnOf[v] < |r.rows[i]|
  }

  function Column(r: QueryResult, v: Var): (ids: seq<Id>)
    requires ColumnInRange(r, v)
    ensures |ids| == |r.rows| && forall i | 0 <= i < |ids| :: ids[i] == r.rows[i][r.columnOf[v]]
  {
    seq(|r.rows|, i requires 0 <= i < |r.rows| => r.rows[i][r.columnOf[v]])
  }

  ghost predicate SortedOn(r: QueryResult, v: Var) {
    ColumnInRange(r, v) ==> Count.Sorted(Column(r, v))
  }

  lemma ResultColumns(d: Data, c: Context, p: GraphPattern, r: QueryResult, v: Var)
    requires IsResultOf(d, c, p, r) && v in r.columnOf
    ensures ColumnInRange(r, v)
  {
    hide IsSolution, HasColumn;
    forall i | 0 <= i < |r.rows|
      ensures r.columnOf[v] < |r.rows[i]|
    {
      assert HasSolutionFor(d, c, p, r, i);
      var m :| IsSolution(d, c, p, m) && Shows(r.rows[i], r.columnOf, m);
    }
  }

  // ---- The columns of the rewritten query ---------------------------------------------------------------

  lemma SubjectHasColumn(c: Context, root: GraphPattern, i: nat, j: nat, tuple: PatternTrickTuple, after: GraphPattern)
    requires IsPosition(root, i, j) && RewrittenPattern(root, i, j, tuple, after)
    ensures HasColumn(tuple.subject, c, after)
  {
    var before, us := Without(root.operations[i].triples, j), after.operations[i].triples;
    var t: SparqlTriple;
    if OwnTripleNeeded(tuple, before) && us == before + [HasPatternTriple(tuple)] {
      t := HasPatternTriple(tuple);
      assert us[|before|] == t;
    } else {
      var k: nat, column :| IsChosen(before, tuple.subject, k, column)
                            && us == before[k := WithColumn(before[k], column, tuple.predicate')];
      ChosenIsSource(before, tuple.subject, k, column);
      t := us[k];
    }
    assert t in us && tuple.subject in TripleVars(c, t);
    assert OperationHasColumn(tuple.subject, c, after.operations[i]);
  }

  /** The result of the query as it is has a column for the predicate variable if and only if the pattern is
      available. That of the query in which the triple has only been erased has none. */
  lemma HasColumnAsIsIff(d: Data, c: Context, root: GraphPattern, i: nat, j: nat, tuple: PatternTrickTuple,
                         after: GraphPattern)
    requires c.graphVariable.None? && IsPosition(root, i, j) && IsTrickTriple(root, i, j, tuple)
    requires RewrittenPattern(root, i, j, tuple, after)
    ensures HasColumn(tuple.predicate', c, after) <==> Available(root, i, j, tuple)
    ensures !HasColumn(tuple.predicate', c, Erased(root, i, j))
  {
    var p, erased := tuple.predicate', Erased(root, i, j);
    VarsAtTopLevel(c, Without(root.operations[i].triples, j), {p});
    ScansBindPredicateIff(d, c, tuple, Without(root.operations[i].triples, j), after.operations[i].triples, map[]);
    assert OperationHasColumn(p, c, after.operations[i]) <==> Available(root, i, j, tuple);
    assert !OperationHasColumn(p, c, erased.operations[i]);
    forall k: nat | k < |root.operations| && k != i
      ensures !OperationHasColumn(p, c, root.operations[k])
    {
      NoColumnElsewhere(c, root, i, j, tuple, k);
    }
    hide OperationHasColumn, IsTrickTriple, RewrittenTriples, Available;
    assert forall k: nat | k < |root.operations| && k != i :: after.operations[k] == root.operations[k] == erased.operations[k];
  }

  lemma NoColumnElsewhere(c: Context, root: GraphPattern, i: nat, j: nat, tuple: PatternTrickTuple, k: nat)
    requires c.graphVariable.None? && IsPosition(root, i, j) && IsTrickTriple(root, i, j, tuple)
    requires k < |root.operations| && k != i
    ensures !OperationHasColumn(tuple.predicate', c, root.operations[k])
  {
    var w := SurroundingsOf(root, i);
    assert root.operations[k] == if k < i then w.before[k] else w.after[k - i - 1];
    if OperationHasColumn(tuple.predicate', c, root.operations[k]) {
      ColumnOccurs(tuple.predicate', c, root.operations[k]);
    }
  }

  /** The result of a plan has a column for the predicate variable if and only if the pattern is available and the
      plan has kept the query as it is. */
  lemma PlanHasColumnIff(views: set<View>, d: Data, c: Context, root: GraphPattern, i: nat, j: nat, tuple: PatternTrickTuple,
                         after: GraphPattern, planned: GraphPattern)
    requires c.graphVariable.None? && WellFormed(root) && IsPosition(root, i, j) && IsTrickTriple(root, i, j, tuple)
    requires RewrittenPattern(root, i, j, tuple, after) && MayPlan(views, c, after, planned)
    ensures HasColumn(tuple.predicate', c, planned) <==> Available(root, i, j, tuple) && planned == after
    ensures HasColumn(tuple.subject, c, planned)
  {
    HasColumnAsIsIff(d, c, root, i, j, tuple, after);
    MayPlanRewrittenIff(views, c, root, i, j, tuple, after, planned);
    SubjectHasColumn(c, root, i, j, tuple, after);
    if planned != after {
      SubjectHasColumnErased(views, c, root, i, j, tuple, after);
    }
  }

  lemma SubjectHasColumnErased(views: set<View>, c: Context, root: GraphPattern, i: nat, j: nat, tuple: PatternTrickTuple,
                               after: GraphPattern)
    requires WellFormed(root) && IsPosition(root, i, j) && RewrittenPattern(root, i, j, tuple, after)
    requires !ColumnsKept(views, c, after.operations, i)
    ensures HasColumn(tuple.subject, c, Erased(root, i, j))
  {
    var before, us := Without(root.operations[i].triples, j), after.operations[i].triples;
    assert root.operations[i] in root.operations && WellFormedOperation(root.operations[i]);
    assert !(us == before + [HasPatternTriple(tuple)]);
    var k: nat, column :| IsChosen(before, tuple.subject, k, column)
                          && us == before[k := WithColumn(before[k], column, tuple.predicate')];
    ChosenIsSource(before, tuple.subject, k, column);
    assert before[k] in before && tuple.subject in TripleVars(c, before[k]);
    assert OperationHasColumn(tuple.subject, c, Erased(root, i, j).operations[i]);
  }

  /** Whatever the planner chooses, the result has a column for the predicate variable: this holds if and only if
      the pattern is available and no view covers the triple that delivers it. */
  lemma PredicateHasColumnIff(views: set<View>, d: Data, c: Context, root: GraphPattern, i: nat, j: nat,
                              tuple: PatternTrickTuple, after: GraphPattern)
    requires c.graphVariable.None? && WellFormed(root) && IsPosition(root, i, j) && IsTrickTriple(root, i, j, tuple)
    requires RewrittenPattern(root, i, j, tuple, after)
    ensures (forall planned | MayPlan(views, c, after, planned) :: HasColumn(tuple.predicate', c, planned))
       <==> Available(root, i, j, tuple) && ColumnsKept(views, c, after.operations, i)
  {
    HasColumnAsIsIff(d, c, root, i, j, tuple, after);
    MayPlanRewrittenIff(views, c, root, i, j, tuple, after, after);
    MayPlanRewrittenIff(views, c, root, i, j, tuple, after, Erased(root, i, j));
    hide HasColumn, MayPlan, ColumnsKept, Available, IsTrickTriple, RewrittenPattern, WellFormed;
    forall planned | MayPlan(views, c, after, planned)
      ensures planned == after || (planned == Erased(root, i, j) && !ColumnsKept(views, c, after.operations, i))
    {
      MayPlanRewrittenIff(views, c, root, i, j, tuple, after, planned);
    }
  }

  // ---- The rows of the rewritten query --------------------------------------------------------------------

  /** A row with this subject and this pattern. */
  ghost predicate RowWith(subjects: seq<Id>, patternColumn: seq<nat>, x: Id, k: nat)
    requires |patternColumn| == |subjects|
  {
    exists i :: 0 <= i < |subjects| && subjects[i] == x && patternColumn[i] == k
  }

  lemma SolutionsBindBoth(d: Data, c: Context, root: GraphPattern, i: nat, j: nat, tuple: PatternTrickTuple,
                          after: GraphPattern, m: Mapping)
    requires c.graphVariable.None? && PatternsStored(d)
    requires IsPosition(root, i, j) && IsTrickTriple(root, i, j, tuple) && Available(root, i, j, tuple)
    requires RewrittenPattern(root, i, j, tuple, after) && IsSolution(d, c, after, m)
    ensures tuple.subject in m && tuple.predicate' in m
  {
    RewrittenMeaning(d, c, root, i, j, tuple, Others(root.operations[i].triples[j]), after, m);
  }

  lemma RowsArePairs(d: Data, c: Context, root: GraphPattern, i: nat, j: nat, tuple: PatternTrickTuple, after: GraphPattern,
                     r: QueryResult, x: Id, k: Id)
    requires c.graphVariable.None? && PatternsStored(d)
    requires IsPosition(root, i, j) && IsTrickTriple(root, i, j, tuple) && Available(root, i, j, tuple)
    requires RewrittenPattern(root, i, j, tuple, after) && IsResultOf(d, c, after, r)
    requires ColumnInRange(r, tuple.subject) && ColumnInRange(r, tuple.predicate')
    ensures RowWith(Column(r, tuple.subject), Column(r, tuple.predicate'), x, k) <==> Pairs(d, c, after, tuple, x, k)
  {
    hide IsSolution, IsTrickTriple, Available, RewrittenPattern, PatternsStored, HasColumn;
    var subjects, patterns := Column(r, tuple.subject), Column(r, tuple.predicate');
    if RowWith(subjects, patterns, x, k) {
      var n: nat :| n < |subjects| && subjects[n] == x && patterns[n] == k;
      assert HasSolutionFor(d, c, after, r, n);
      var m :| IsSolution(d, c, after, m) && Shows(r.rows[n], r.columnOf, m);
      SolutionsBindBoth(d, c, root, i, j, tuple, after, m);
      ShowsBoth(r, tuple, n, m);
    }
    if Pairs(d, c, after, tuple, x, k) {
      var m :| IsSolution(d, c, after, m) && BindsBoth(tuple, m, x, k);
      assert HasRowFor(r, m);
      var n: nat :| n < |r.rows| && Shows(r.rows[n], r.columnOf, m);
      ShowsBoth(r, tuple, n, m);
    }
  }

  lemma ShowsBoth(r: QueryResult, tuple: PatternTrickTuple, n: nat, m: Mapping)
    requires n < |r.rows| && Shows(r.rows[n], r.columnOf, m)
    requires ColumnInRange(r, tuple.subject) && ColumnInRange(r, tuple.predicate')
    requires tuple.subject in m && tuple.predicate' in m
    ensures BindsBoth(tuple, m, Column(r, tuple.subject)[n], Column(r, tuple.predicate')[n])
  {}

  /** The columns are those of the rewritten query. */
  ghost predicate AreColumns(d: Data, c: Context, after: GraphPattern, tuple: PatternTrickTuple, subjects: seq<Id>,
                             patternColumn: seq<nat>)
  {
    |patternColumn| == |subjects| && forall x, k :: RowWith(subjects, patternColumn, x, k) <==> Pairs(d, c, after, tuple, x, k)
  }

  /** They have one pattern per subject, and only patterns that exist. */
  lemma ColumnsAreCountable(d: Data, c: Context, root: GraphPattern, i: nat, j: nat, tuple: PatternTrickTuple,
                            after: GraphPattern, subjects: seq<Id>, patternColumn: seq<nat>)
    requires c.graphVariable.None? && PatternsBuilt(d)
    requires IsPosition(root, i, j) && IsTrickTriple(root, i, j, tuple) && Available(root, i, j, tuple)
    requires RewrittenPattern(root, i, j, tuple, after) && AreColumns(d, c, after, tuple, subjects, patternColumn)
    ensures Count.PatternPerSubject(subjects, patternColumn) && !Count.HasIllegal(patternColumn, d.patterns)
  {
    hide IsTrickTriple, Available, RewrittenPattern, Pairs;
    forall n | 0 <= n < |subjects|
      ensures patternColumn[n] == d.patternOf(subjects[n]) && !Count.IsIllegal(d.patterns, patternColumn[n])
    {
      assert RowWith(subjects, patternColumn, subjects[n], patternColumn[n]);
      RewrittenPairs(d, c, root, i, j, tuple, after, subjects[n], patternColumn[n]);
    }
  }

  lemma ListingIff(d: Data, c: Context, tuple: PatternTrickTuple, after: GraphPattern, subjects: seq<Id>,
                   patternColumn: seq<nat>, p: Id, x: Id)
    requires AreColumns(d, c, after, tuple, subjects, patternColumn)
    ensures x in Count.SubjectsListing(subjects, patternColumn, d.patterns, p) <==> PairsByTrick(d, c, after, tuple, x, p)
  {
    hide Pairs;
    if x in Count.SubjectsListing(subjects, patternColumn, d.patterns, p) {
      var n: nat :| n < |subjects| && Count.ListedFor(d.patterns, patternColumn, n, p) && subjects[n] == x;
      assert RowWith(subjects, patternColumn, x, patternColumn[n]);
      assert Pairs(d, c, after, tuple, x, patternColumn[n]) && Lists(d, patternColumn[n], p);
    }
    if PairsByTrick(d, c, after, tuple, x, p) {
      var k :| Pairs(d, c, after, tuple, x, k) && Lists(d, k, p);
      assert RowWith(subjects, patternColumn, x, k);
      var n: nat :| n < |subjects| && subjects[n] == x && patternColumn[n] == k;
      assert Count.ListedFor(d.patterns, patternColumn, n, p);
    }
  }

  // ---- The groups of the original query -------------------------------------------------------------------

  lemma SameSizeIff<T>(a: set<T>, b: set<T>)
    requires a <= b || b <= a
    ensures |a| == |b| <==> a == b
  {
    if a <= b {
      var e := b - a;
      assert b == a + e && a !! e;
    } else {
      var e := a - b;
      assert a == b + e && b !! e;
    }
  }

  ghost predicate SameSize(d: Data, c: Context, root: GraphPattern, tuple: PatternTrickTuple, subjects: seq<Id>,
                           patternColumn: seq<nat>, p: Id)
  {
    |DistinctSubjects(d, c, root, tuple, p)| == |Count.SubjectsListing(subjects, patternColumn, d.patterns, p)|
  }

  /** For one predicate, the trick counts the right number of subjects exactly if it counts the right ones. */
  lemma CountsAgreeIff(d: Data, c: Context, root: GraphPattern, i: nat, j: nat, tuple: PatternTrickTuple,
                       after: GraphPattern, subjects: seq<Id>, patternColumn: seq<nat>, p: Id)
    requires c.graphVariable.None? && PatternsBuilt(d)
    requires IsPosition(root, i, j) && IsTrickTriple(root, i, j, tuple) && Available(root, i, j, tuple)
    requires RewrittenPattern(root, i, j, tuple, after) && AreColumns(d, c, after, tuple, subjects, patternColumn)
    ensures SameSize(d, c, root, tuple, subjects, patternColumn, p) <==> SamePairsFor(d, c, root, tuple, after, p)
  {
    var a, b := DistinctSubjects(d, c, root, tuple, p), Count.SubjectsListing(subjects, patternColumn, d.patterns, p);
    hide IsTrickTriple, Available, RewrittenPattern, PatternsBuilt, AreColumns, Pairs, PairsByTrick, DistinctSubjects,
         Count.SubjectsListing, Own, StoredPatternsActive;
    forall x
      ensures x in a <==> Pairs(d, c, root, tuple, x, p)
      ensures x in b <==> PairsByTrick(d, c, after, tuple, x, p)
      ensures if Own(root, i, j, tuple) && !StoredPatternsActive(d, c) then x !in b else x in a ==> x in b
    {
      SubjectsIff(d, c, root, i, j, tuple, p, x);
      ListingIff(d, c, tuple, after, subjects, patternColumn, p, x);
      PairsNested(d, c, root, i, j, tuple, after, x, p);
    }
    SameSizeIff(a, b);
  }

  /** What counting the patterns of the rewritten query yields are the groups of the original query if and only
      if the active graphs agree with the patterns. */
  lemma CountedAreGroupsIff(d: Data, c: Context, root: GraphPattern, i: nat, j: nat, tuple: PatternTrickTuple,
                            after: GraphPattern, subjects: seq<Id>, patternColumn: seq<nat>, rows: seq<(Id, nat)>)
    requires c.graphVariable.None? && PatternsBuilt(d)
    requires IsPosition(root, i, j) && IsTrickTriple(root, i, j, tuple) && Available(root, i, j, tuple)
    requires RewrittenPattern(root, i, j, tuple, after) && AreColumns(d, c, after, tuple, subjects, patternColumn)
    requires Count.IsResult(rows, subjects, patternColumn, d.patterns)
    ensures AreGroups(d, c, root, tuple, rows) <==> DatasetAgrees(d, c, root, i, j, tuple)
  {
    SamePairsIff(d, c, root, i, j, tuple, after);
    hide IsTrickTriple, Available, RewrittenPattern, PatternsBuilt, AreColumns, Pairs, PairsByTrick, DistinctSubjects,
         Count.SubjectsListing, DatasetAgrees, SamePairsFor, SameSize, AreGroups, Count.IsResult;
    forall p: Id
      ensures SameSize(d, c, root, tuple, subjects, patternColumn, p) <==> SamePairsFor(d, c, root, tuple, after, p)
    {
      CountsAgreeIff(d, c, root, i, j, tuple, after, subjects, patternColumn, p);
    }
    RowsAgreeIff(d, c, root, tuple, subjects, patternColumn, rows);
  }

  lemma RowsAgreeIff(d: Data, c: Context, root: GraphPattern, tuple: PatternTrickTuple, subjects: seq<Id>,
                     patternColumn: seq<nat>, rows: seq<(Id, nat)>)
    requires Count.IsResult(rows, subjects, patternColumn, d.patterns)
    ensures AreGroups(d, c, root, tuple, rows)
       <==> forall p: Id :: SameSize(d, c, root, tuple, subjects, patternColumn, p)
  {
    hide DistinctSubjects, Count.SubjectsListing;
    if AreGroups(d, c, root, tuple, rows) {
      forall p: Id
        ensures SameSize(d, c, root, tuple, subjects, patternColumn, p)
      {
        var m, n := |DistinctSubjects(d, c, root, tuple, p)|, |Count.SubjectsListing(subjects, patternColumn, d.patterns, p)|;
        assert (p, m) in rows <==> m > 0;
        assert (p, n) in rows <==> n > 0;
        assert (p, m) in rows <==> m == n > 0;
        assert (p, n) in rows <==> n == m > 0;
      }
    }
    if forall p: Id :: SameSize(d, c, root, tuple, subjects, patternColumn, p) {
      forall p: Id, n: nat
        ensures (p, n) in rows <==> n == |DistinctSubjects(d, c, root, tuple, p)| > 0
      {
        assert SameSize(d, c, root, tuple, subjects, patternColumn, p);
      }
    }
  }

  /** Counting finds a predicate if the rewritten query pairs some subject with a pattern that lists it. */
  lemma CountedKeysIff(d: Data, c: Context, root: GraphPattern, i: nat, j: nat, tuple: PatternTrickTuple,
                       after: GraphPattern, subjects: seq<Id>, patternColumn: seq<nat>, rows: seq<(Id, nat)>)
    requires c.graphVariable.None? && PatternsBuilt(d)
    requires IsPosition(root, i, j) && IsTrickTriple(root, i, j, tuple) && Available(root, i, j, tuple)
    requires RewrittenPattern(root, i, j, tuple, after) && AreColumns(d, c, after, tuple, subjects, patternColumn)
    requires Count.IsResult(rows, subjects, patternColumn, d.patterns)
    ensures HavePredicates(d, c, root, tuple, rows) <==> KeysAgree(d, c, root, i, j, tuple)
  {
    SameKeysIff(d, c, root, i, j, tuple, after);
    forall p: Id
      ensures HasKey(rows, p) <==> exists x :: PairsByTrick(d, c, after, tuple, x, p)
      ensures DistinctSubjects(d, c, root, tuple, p) != {} <==> exists x :: Pairs(d, c, root, tuple, x, p)
    {
      KeysOfResult(d, c, root, i, j, tuple, after, subjects, patternColumn, rows, p);
    }
    hide IsTrickTriple, Available, RewrittenPattern, PatternsBuilt, AreColumns, Pairs, PairsByTrick, DistinctSubjects, KeysAgree,
         HasKey;
    assert forall p: Id :: SameKey(d, c, root, tuple, after, p)
                           <==> (HasKey(rows, p) <==> DistinctSubjects(d, c, root, tuple, p) != {});
  }

  lemma KeysOfResult(d: Data, c: Context, root: GraphPattern, i: nat, j: nat, tuple: PatternTrickTuple,
                     after: GraphPattern, subjects: seq<Id>, patternColumn: seq<nat>, rows: seq<(Id, nat)>, p: Id)
    requires c.graphVariable.None? && PatternsBuilt(d) && IsPosition(root, i, j) && IsTrickTriple(root, i, j, tuple)
    requires AreColumns(d, c, after, tuple, subjects, patternColumn) && Count.IsResult(rows, subjects, patternColumn, d.patterns)
    ensures HasKey(rows, p) <==> exists x :: PairsByTrick(d, c, after, tuple, x, p)
    ensures DistinctSubjects(d, c, root, tuple, p) != {} <==> exists x :: Pairs(d, c, root, tuple, x, p)
  {
    var a, b := DistinctSubjects(d, c, root, tuple, p), Count.SubjectsListing(subjects, patternColumn, d.patterns, p);
    forall x
      ensures x in a <==> Pairs(d, c, root, tuple, x, p)
      ensures x in b <==> PairsByTrick(d, c, after, tuple, x, p)
    {
      SubjectsIff(d, c, root, i, j, tuple, p, x);
      ListingIff(d, c, tuple, after, subjects, patternColumn, p, x);
    }
    hide IsTrickTriple, AreColumns, Pairs, PairsByTrick, DistinctSubjects, PatternsBuilt;
    assert (p, |b|) in rows <==> |b| > 0;
    hide Count.SubjectsListing;
    if HasKey(rows, p) {
      var n :| (p, n) in rows;
      var x :| x in b;
      assert PairsByTrick(d, c, after, tuple, x, p);
    }
    if a != {} {
      var x :| x in a;
      assert Pairs(d, c, root, tuple, x, p);
    }
  }

  /** What the active graphs have to fulfil. */
  ghost predicate Agrees(d: Data, c: Context, root: GraphPattern, i: nat, j: nat, tuple: PatternTrickTuple,
                         aliases: seq<Option<CountedVariable>>)
    requires c.graphVariable.None? && IsPosition(root, i, j)
  {
    if aliases == [] then KeysAgree(d, c, root, i, j, tuple) else DatasetAgrees(d, c, root, i, j, tuple)
  }

  /** Every predicate of a subject is one in an active graph, and so are the stored patterns: this suffices whatever
      the query. */
  ghost predicate GraphsAgree(d: Data, c: Context)
    requires c.graphVariable.None?
  {
    StoredPatternsActive(d, c) && forall x, p | HasQuad(d, x, p) :: HasTriple(d, c, x, p)
  }

  lemma GraphsAgreeSuffices(d: Data, c: Context, root: GraphPattern, i: nat, j: nat, tuple: PatternTrickTuple,
                            aliases: seq<Option<CountedVariable>>)
    requires c.graphVariable.None? && IsPosition(root, i, j) && GraphsAgree(d, c)
    ensures Agrees(d, c, root, i, j, tuple, aliases)
  {
    hide BaseSubject, Own, Gives, HasQuad, HasTriple, StoredPatternsActive;
    forall x: Id, p: Id | BaseSubject(d, c, RestOf(root, i, j, tuple.subject), x)
      ensures AgreesFor(d, c, root, i, j, tuple, x, p) && KeyAgreesFor(d, c, root, i, j, tuple, x, p)
    {}
  }

  /** Without FROM clauses, all graphs agree. */
  lemma AgreesWithoutFrom(d: Data, root: GraphPattern, i: nat, j: nat, tuple: PatternTrickTuple,
                          aliases: seq<Option<CountedVariable>>)
    requires IsPosition(root, i, j)
    ensures GraphsAgree(d, TopLevel(UNCONSTRAINED)) && Agrees(d, TopLevel(UNCONSTRAINED), root, i, j, tuple, aliases)
  {
    forall x, p | HasQuad(d, x, p) {
      QuadIsTriple(d, x, p);
    }
    GraphsAgreeSuffices(d, TopLevel(UNCONSTRAINED), root, i, j, tuple, aliases);
  }

  /** Counting the patterns of the rewritten query answers the original query if and only if the active graphs agree
      with the patterns. */
  lemma CountedAnswersIff(d: Data, c: Context, root: GraphPattern, i: nat, j: nat, tuple: PatternTrickTuple,
                          groupByVariables: seq<Var>, aliases: seq<Option<CountedVariable>>, after: GraphPattern,
                          subjects: seq<Id>, patternColumn: seq<nat>, rows: seq<(Id, nat)>)
    requires c.graphVariable.None? && PatternsBuilt(d) && Asks(groupByVariables, aliases, tuple)
    requires IsPosition(root, i, j) && IsTrickTriple(root, i, j, tuple) && Available(root, i, j, tuple)
    requires RewrittenPattern(root, i, j, tuple, after) && AreColumns(d, c, after, tuple, subjects, patternColumn)
    requires Count.IsResult(rows, subjects, patternColumn, d.patterns)
    ensures AnswersQuery(d, c, root, groupByVariables, aliases, rows) <==> Agrees(d, c, root, i, j, tuple, aliases)
  {
    hide IsTrickTriple, Available, RewrittenPattern, PatternsBuilt, AreColumns, AnswersQuery, HavePredicates, AreGroups,
         KeysAgree, DatasetAgrees, Count.IsResult, Asks;
    AnswersQueryIff(d, c, root, i, j, tuple, groupByVariables, aliases, rows);
    CountedKeysIff(d, c, root, i, j, tuple, after, subjects, patternColumn, rows);
    CountedAreGroupsIff(d, c, root, i, j, tuple, after, subjects, patternColumn, rows);
  }

  /** The pattern trick is right: for the first suitable triple, if no variable of it but the subject is that of a
      GRAPH clause, the pattern is available, and no view covers the triple that delivers it, then counting the
      patterns in the result of any plan answers the query if and only if the active graphs agree with the patterns. */
  lemma PatternTrickIsRight(views: set<View>, d: Data, c: Context, root: GraphPattern, i: nat, j: nat, groupBy: Var,
                            aliases: seq<Option<CountedVariable>>, counted: Option<CountedVariable>, tuple: PatternTrickTuple,
                            after: GraphPattern, planned: GraphPattern, subjects: seq<Id>, patternColumn: seq<nat>,
                            rows: seq<(Id, nat)>)
    requires c.graphVariable.None? && PatternsBuilt(d) && WellFormed(root)
    requires RewrittenAt(root, i, j, groupBy, counted, tuple, after) && IsCounted(aliases, counted)
    requires NoGraphVariable(root, i, j) && Available(root, i, j, tuple) && ColumnsKept(views, c, after.operations, i)
    requires MayPlan(views, c, after, planned) && AreColumns(d, c, planned, tuple, subjects, patternColumn)
    requires Count.IsResult(rows, subjects, patternColumn, d.patterns)
    ensures AnswersQuery(d, c, root, [groupBy], aliases, rows) <==> Agrees(d, c, root, i, j, tuple, aliases)
    ensures c == TopLevel(UNCONSTRAINED) ==> AnswersQuery(d, c, root, [groupBy], aliases, rows)
  {
    MayPlanRewrittenIff(views, c, root, i, j, tuple, after, planned);
    SuitableIsTrickTriple(root, i, j, groupBy, counted);
    SuitableAsks(root, i, j, groupBy, aliases, counted, tuple);
    CountedAnswersIff(d, c, root, i, j, tuple, [groupBy], aliases, after, subjects, patternColumn, rows);
    AgreesWithoutFrom(d, root, i, j, tuple, aliases);
  }

  // ---- The whole query --------------------------------------------------------------------------------------

  /** What the answer is for a suitable triple of which no variable but the subject is that of a GRAPH clause:
      that of the query, exactly if the active graphs agree with the patterns; but an exception exactly if
      the pattern is not available, or its column was lost because the plan is not that of the query as it is. */
  ghost predicate IsAnswer(d: Data, c: Context, root: GraphPattern, i: nat, j: nat, groupByVariables: seq<Var>,
                           aliases: seq<Option<CountedVariable>>, tuple: PatternTrickTuple, after: GraphPattern,
                           planned: GraphPattern, answer: Answer)
    requires c.graphVariable.None? && IsPosition(root, i, j)
  {
    && !answer.NotApplicable?
    && (answer.Failed? <==> !(Available(root, i, j, tuple) && planned == after))
    && (answer.Groups? ==> (AnswersQuery(d, c, root, groupByVariables, aliases, answer.rows)
                            <==> Agrees(d, c, root, i, j, tuple, aliases)))
  }

  /** The result of a plan that the planner may choose for the rewritten query, sorted by the subject. */
  ghost predicate IsResultOfPlan(views: set<View>, d: Data, c: Context, after: GraphPattern, planned: GraphPattern,
                                 s: Var, r: QueryResult)
  {
    MayPlan(views, c, after, planned) && IsResultOf(d, c, planned, r) && SortedOn(r, s)
  }

  ghost predicate PlansRewritten(views: set<View>, d: Data, c: Context, root: GraphPattern, groupBy: Var,
                                 counted: Option<CountedVariable>, plan: GraphPattern -> QueryResult)
  {
    forall i, j, tuple, after | RewrittenAt(root, i, j, groupBy, counted, tuple, after) ::
      exists planned :: IsResultOfPlan(views, d, c, after, planned, tuple.subject, plan(after))
  }

  /** In the triple that will be found, only the subject may be the variable of a GRAPH clause. */
  ghost predicate NoGraphVariableFound(root: GraphPattern, groupBy: Var, counted: Option<CountedVariable>) {
    forall i: nat, j: nat | IsPosition(root, i, j) && NoneBefore(root, i, j, groupBy, counted)
                            && SuitableAt(root, i, j, groupBy, counted).Some? ::
      NoGraphVariable(root, i, j)
  }

  /** Looks up the two columns, which throws if there is none, and counts the patterns. */
  method ComputeResult(r: QueryResult, tuple: PatternTrickTuple, patterns: Count.Patterns,
                       rowChunks: nat -> seq<Count.Range>, patternChunks: nat -> seq<Count.Range>,
                       ghost views: set<View>, ghost d: Data, ghost c: Context, ghost root: GraphPattern, ghost i: nat,
                       ghost j: nat, ghost groupByVariables: seq<Var>, ghost aliases: seq<Option<CountedVariable>>,
                       ghost after: GraphPattern, ghost planned: GraphPattern)
    returns (answer: Answer)
    requires c.graphVariable.None? && PatternsBuilt(d) && patterns == d.patterns && WellFormed(root)
    requires Asks(groupByVariables, aliases, tuple)
    requires IsPosition(root, i, j) && IsTrickTriple(root, i, j, tuple) && RewrittenPattern(root, i, j, tuple, after)
    requires IsResultOfPlan(views, d, c, after, planned, tuple.subject, r)
    requires forall n :: Count.IsPartition(rowChunks(n), n) && Count.IsPartition(patternChunks(n), n)
    ensures IsAnswer(d, c, root, i, j, groupByVariables, aliases, tuple, after, planned, answer)
  {
    PlanHasColumnIff(views, d, c, root, i, j, tuple, after, planned);
    assert tuple.subject in r.columnOf;
    assert tuple.predicate' in r.columnOf <==> Available(root, i, j, tuple) && planned == after;
    hide IsTrickTriple, RewrittenPattern, IsResultOf, AnswersQuery, Agrees, Asks, Available, Count.IsPartition, Count.IsResult,
         MayPlan, WellFormed;
    if tuple.predicate' !in r.columnOf {
      return Failed;
    }
    ResultColumns(d, c, after, r, tuple.subject);
    ResultColumns(d, c, after, r, tuple.predicate');
    var subjects, patternColumn := Column(r, tuple.subject), Column(r, tuple.predicate');
    forall x, k
      ensures RowWith(subjects, patternColumn, x, k) <==> Pairs(d, c, after, tuple, x, k)
    {
      RowsArePairs(d, c, root, i, j, tuple, after, r, x, k);
    }
    ColumnsAreCountable(d, c, root, i, j, tuple, after, subjects, patternColumn);
    var result := Count.ComputePatternTrick(subjects, patternColumn, patterns, rowChunks, patternChunks);
    CountedAnswersIff(d, c, root, i, j, tuple, groupByVariables, aliases, after, subjects, patternColumn, result.value);
    return Groups(result.value);
  }

  /** From the query to its groups. Either the trick is not applicable, and the query stays as it is; or the first
      suitable triple is found, and the answer is the right one under exactly the conditions of `IsAnswer`. The
      name of the count is taken from the SELECT clause, which throws if there is none. */
  method AnswerByPatternTrick(q: ParsedQuery, plan: GraphPattern -> QueryResult, patterns: Count.Patterns,
                              rowChunks: nat -> seq<Count.Range>, patternChunks: nat -> seq<Count.Range>,
                              ghost views: set<View>, ghost d: Data, ghost c: Context)
    returns (answer: Answer)
    requires c.graphVariable.None? && PatternsBuilt(d) && patterns == d.patterns && WellFormed(q.rootGraphPattern)
    requires q.Countable() ==>
               && NoGraphVariableFound(q.rootGraphPattern, q.groupByVariables[0], q.Counted())
               && PlansRewritten(views, d, c, q.rootGraphPattern, q.groupByVariables[0], q.Counted(), plan)
    requires forall n :: Count.IsPartition(rowChunks(n), n) && Count.IsPartition(patternChunks(n), n)
    modifies q
    ensures answer.NotApplicable? ==> q.rootGraphPattern == old(q.rootGraphPattern)
    ensures answer.NotApplicable? <==> !HasSuitable(old(q.rootGraphPattern), q.groupByVariables, q.aliases)
    ensures !answer.NotApplicable? ==> exists i: nat, j: nat, tuple, planned ::
              AnsweredAt(views, d, c, old(q.rootGraphPattern), i, j, q.groupByVariables, q.aliases, q.hasSelectClause, tuple,
                         q.rootGraphPattern, planned, answer)
    ensures answer.Groups? && (c == TopLevel(UNCONSTRAINED) || GraphsAgree(d, c))
            ==> AnswersQuery(d, c, old(q.rootGraphPattern), q.groupByVariables, q.aliases, answer.rows)
  {
    ghost var root := q.rootGraphPattern;
    var tuple := q.CheckUsePatternTrick();
    if tuple.None? {
      NoneSuitable(q);
      return NotApplicable;
    }
    ghost var i: nat, j: nat :|
      RewrittenAt(root, i, j, q.groupByVariables[0], q.Counted(), tuple.value, q.rootGraphPattern);
    SuitableIsTrickTriple(root, i, j, q.groupByVariables[0], q.Counted());
    CountableAsks(q, root, i, j, tuple.value);
    AgreesWithoutFrom(d, root, i, j, tuple.value, q.aliases);
    if GraphsAgree(d, c) {
      GraphsAgreeSuffices(d, c, root, i, j, tuple.value, q.aliases);
    }
    var r := plan(q.rootGraphPattern);
    ghost var planned :| IsResultOfPlan(views, d, c, q.rootGraphPattern, planned, tuple.value.subject, r);
    hide AnswersQuery, Agrees, Asks, GraphsAgree;
    if q.hasSelectClause {
      answer := ComputeResult(r, tuple.value, patterns, rowChunks, patternChunks, views, d, c, root, i, j,
                              q.groupByVariables, q.aliases, q.rootGraphPattern, planned);
    } else {
      answer := Failed;
    }
    assert AnsweredAt(views, d, c, root, i, j, q.groupByVariables, q.aliases, q.hasSelectClause, tuple.value,
                      q.rootGraphPattern, planned, answer);
  }

  ghost predicate AnsweredAt(views: set<View>, d: Data, c: Context, root: GraphPattern, i: nat, j: nat,
                             groupByVariables: seq<Var>, aliases: seq<Option<CountedVariable>>, hasSelectClause: bool,
                             tuple: PatternTrickTuple, after: GraphPattern, planned: GraphPattern, answer: Answer)
    requires c.graphVariable.None?
  {
    && |groupByVariables| == 1 && RewrittenAt(root, i, j, groupByVariables[0], CountedIn(aliases), tuple, after)
    && MayPlan(views, c, after, planned)
    && if hasSelectClause then IsAnswer(d, c, root, i, j, groupByVariables, aliases, tuple, after, planned, answer)
       else answer.Failed?
  }

  ghost function CountedIn(aliases: seq<Option<CountedVariable>>): Option<CountedVariable> {
    if aliases == [] then None else aliases[0]
  }

  /** The query has one variable to group by, at most one alias, which then is the count of a variable, and a
      suitable triple. */
  ghost predicate HasSuitable(root: GraphPattern, groupByVariables: seq<Var>, aliases: seq<Option<CountedVariable>>) {
    && |groupByVariables| == 1 && |aliases| <= 1 && (forall a | a in aliases :: a.Some?)
    && HasSuitableTriple(root, groupByVariables[0], CountedIn(aliases))
  }

  ghost predicate HasSuitableTriple(root: GraphPattern, groupBy: Var, counted: Option<CountedVariable>) {
    exists i: nat, j: nat, subject, predicate' ::
      IsPosition(root, i, j) && IsSuitable(root, i, j, groupBy, counted, subject, predicate')
  }

  lemma NoneSuitable(q: ParsedQuery)
    requires q.Countable() ==> forall i: nat, j: nat | IsPosition(q.rootGraphPattern, i, j) ::
               SuitableAt(q.rootGraphPattern, i, j, q.groupByVariables[0], q.Counted()) == None
    ensures !HasSuitable(q.rootGraphPattern, q.groupByVariables, q.aliases)
  {
    var root := q.rootGraphPattern;
    if HasSuitable(root, q.groupByVariables, q.aliases) {
      var counted := CountedIn(q.aliases);
      var i: nat, j: nat, subject, predicate' :|
        IsPosition(root, i, j) && IsSuitable(root, i, j, q.groupByVariables[0], counted, subject, predicate');
      assert q.aliases != [] ==> q.aliases[0] in q.aliases;
      SuitableIff(root, i, j, q.groupByVariables[0], q.Counted(), PatternTrickTuple(subject, predicate'));
    }
  }

  lemma CountableAsks(q: ParsedQuery, root: GraphPattern, i: nat, j: nat, tuple: PatternTrickTuple)
    requires q.Countable() && IsPosition(root, i, j) && SuitableAt(root, i, j, q.groupByVariables[0], q.Counted()) == Some(tuple)
    ensures Asks(q.groupByVariables, q.aliases, tuple) && HasSuitable(root, q.groupByVariables, q.aliases)
    ensures q.Counted() == CountedIn(q.aliases)
  {
    SuitableIff(root, i, j, q.groupByVariables[0], q.Counted(), tuple);
    assert q.groupByVariables == [q.groupByVariables[0]];
    assert q.aliases == if q.aliases == [] then [] else [q.aliases[0]];
    SuitableAsks(root, i, j, q.groupByVariables[0], q.aliases, q.Counted(), tuple);
  }

  /** No plan that the planner may choose leads to an exception if and only if the pattern is available and no view
      covers the triple that delivers it. */
  lemma NeverFailsIff(views: set<View>, d: Data, c: Context, root: GraphPattern, i: nat, j: nat, groupByVariables: seq<Var>,
                      aliases: seq<Option<CountedVariable>>, tuple: PatternTrickTuple, after: GraphPattern)
    requires c.graphVariable.None? && WellFormed(root) && IsPosition(root, i, j) && RewrittenPattern(root, i, j, tuple, after)
    ensures (forall planned, answer | MayPlan(views, c, after, planned)
                                      && IsAnswer(d, c, root, i, j, groupByVariables, aliases, tuple, after, planned, answer) ::
               answer.Groups?)
       <==> Available(root, i, j, tuple) && ColumnsKept(views, c, after.operations, i)
  {
    var erased := Erased(root, i, j);
    var kept := ColumnsKept(views, c, after.operations, i);
    hide AnswersQuery, Agrees, Available, ColumnsKept, MayPlan, RewrittenPattern, WellFormed;
    MayPlanRewrittenIff(views, c, root, i, j, tuple, after, after);
    MayPlanRewrittenIff(views, c, root, i, j, tuple, after, erased);
    if !Available(root, i, j, tuple) {
      assert IsAnswer(d, c, root, i, j, groupByVariables, aliases, tuple, after, after, Failed);
    } else if !kept {
      ErasedDiffers(views, c, root, i, j, tuple, after);
      assert IsAnswer(d, c, root, i, j, groupByVariables, aliases, tuple, after, erased, Failed);
    } else {
      forall planned | MayPlan(views, c, after, planned)
        ensures planned == after
      {
        MayPlanRewrittenIff(views, c, root, i, j, tuple, after, planned);
      }
    }
  }

  lemma ErasedDiffers(views: set<View>, c: Context, root: GraphPattern, i: nat, j: nat, tuple: PatternTrickTuple,
                      after: GraphPattern)
    requires WellFormed(root) && IsPosition(root, i, j) && RewrittenPattern(root, i, j, tuple, after)
    requires !ColumnsKept(views, c, after.operations, i)
    ensures Erased(root, i, j) != after
  {
    var before := Without(root.operations[i].triples, j);
    assert root.operations[i] in root.operations && WellFormedOperation(root.operations[i]);
    assert forall t | t in before :: t.additionalScanColumns == [];
    assert exists t :: t in after.operations[i].triples && t.additionalScanColumns != [];
  }

  /** Without FROM clauses, an answer that is no exception is that of the query. */
  lemma AnswerWithoutFrom(views: set<View>, d: Data, root: GraphPattern, i: nat, j: nat, groupByVariables: seq<Var>,
                          aliases: seq<Option<CountedVariable>>, tuple: PatternTrickTuple, after: GraphPattern,
                          planned: GraphPattern, answer: Answer)
    requires WellFormed(root) && IsPosition(root, i, j) && RewrittenPattern(root, i, j, tuple, after)
    requires MayPlan(views, TopLevel(UNCONSTRAINED), after, planned)
    requires IsAnswer(d, TopLevel(UNCONSTRAINED), root, i, j, groupByVariables, aliases, tuple, after, planned, answer)
    ensures answer.Groups? ==> AnswersQuery(d, TopLevel(UNCONSTRAINED), root, groupByVariables, aliases, answer.rows)
    ensures Available(root, i, j, tuple) && ColumnsKept(views, TopLevel(UNCONSTRAINED), after.operations, i) ==> answer.Groups?
    ensures !Available(root, i, j, tuple) ==> answer.Failed?
  {
    MayPlanRewrittenIff(views, TopLevel(UNCONSTRAINED), root, i, j, tuple, after, planned);
    AgreesWithoutFrom(d, root, i, j, tuple, aliases);
  }
}
