/**
 What a basic graph pattern with one distinguished triple means, when the variables that only this
 triple binds are split off the solutions.
 */
module PatternTrickMeaning {
  import opened Tables
  import opened Datasets
  import opened GraphPatterns
  import opened PatternFrames

  /** A solution of the triples that also binds `s`. */
  ghost predicate Base(d: Data, c: Context, ts: seq<SparqlTriple>, s: Var, m: Mapping) {
    m.Keys == VarsOf(c, ts) + {s} && MatchesAll(d, c, ts, m)
  }

  /** A base solution with the variables `vars` added such that `condition` holds. */
  ghost predicate BaseAnd(d: Data, c: Context, ts: seq<SparqlTriple>, s: Var, vars: set<Var>, condition: Mapping -> bool, m: Mapping) {
    vars <= m.Keys && Base(d, c, ts, s, m - vars) && condition(m)
  }

  ghost predicate TripleHolds(d: Data, c: Context, t: SparqlTriple, m: Mapping) {
    TripleVars(c, t) <= m.Keys && Matches(d, c, t, m)
  }

  ghost predicate DependsOn(condition: Mapping -> bool, vars: set<Var>) {
    forall a, b | AgreeOn(vars, a, b) :: condition(a) <==> condition(b)
  }

  // ---- Triples --------------------------------------------------------------------------------------

  lemma HoldsAgree(d: Data, c: Context, t: SparqlTriple, a: Mapping, b: Mapping)
    requires AgreeOn(TripleVars(c, t), a, b)
    ensures TripleHolds(d, c, t, a) <==> TripleHolds(d, c, t, b)
  {
    if TripleVars(c, t) <= a.Keys || TripleVars(c, t) <= b.Keys {
      assert forall v | v in TripleVars(c, t) :: v in a && v in b && a[v] == b[v];
      assert ValueOf(t.s, a) == ValueOf(t.s, b) && ValueOf(t.o, a) == ValueOf(t.o, b);
      ScansAgree(d, c, t, a, b);
      forall i | 0 <= i < |t.additionalScanColumns| && KindOf(t) == OrdinaryScan
        ensures t.additionalScanColumns[i].1 in TripleVars(c, t)
      {
        assert t.additionalScanColumns[i].1 in ColumnVars(t);
      }
    }
  }

  lemma ScansAgree(d: Data, c: Context, t: SparqlTriple, a: Mapping, b: Mapping)
    requires TripleVars(c, t) <= a.Keys && TripleVars(c, t) <= b.Keys
    requires forall v | v in TripleVars(c, t) :: a[v] == b[v]
    ensures MatchesScan(d, c, t, a) <==> MatchesScan(d, c, t, b)
  {
    if BindsGraph(t) {
      assert c.graphVariable.Some? ==> a[c.graphVariable.value] == b[c.graphVariable.value];
      assert Scanned(d, c, d.quads, a) == Scanned(d, c, d.quads, b);
      assert Scanned(d, c, d.internalQuads, a) == Scanned(d, c, d.internalQuads, b);
    }
  }

  lemma AllHoldAgree(d: Data, c: Context, ts: seq<SparqlTriple>, a: Mapping, b: Mapping)
    requires AgreeOn(VarsOf(c, ts), a, b)
    ensures MatchesAll(d, c, ts, a) <==> MatchesAll(d, c, ts, b)
  {
    forall t | t in ts
      ensures TripleHolds(d, c, t, a) <==> TripleHolds(d, c, t, b)
      ensures TripleVars(c, t) <= VarsOf(c, ts)
    {
      assert TripleVars(c, t) <= VarsOf(c, ts);
      HoldsAgree(d, c, t, a, b);
    }
  }

  lemma AllHoldIff(d: Data, c: Context, ts: seq<SparqlTriple>, m: Mapping)
    ensures MatchesAll(d, c, ts, m) <==> forall t | t in ts :: TripleHolds(d, c, t, m)
  {
    if forall t | t in ts :: TripleHolds(d, c, t, m) {
      forall v | v in VarsOf(c, ts)
        ensures v in m
      {
        var t :| t in ts && v in TripleVars(c, t);
        assert TripleHolds(d, c, t, m);
      }
    }
  }

  function Without<T>(ts: seq<T>, j: nat): seq<T>
    requires j < |ts|
  {
    ts[..j] + ts[j + 1..]
  }

  lemma WithoutContains<T>(ts: seq<T>, j: nat, t: T)
    requires j < |ts|
    ensures t in ts <==> t == ts[j] || t in Without(ts, j)
  {
    assert ts == ts[..j] + [ts[j]] + ts[j + 1..];
  }

  lemma VarsWithout(c: Context, ts: seq<SparqlTriple>, j: nat)
    requires j < |ts|
    ensures VarsOf(c, ts) == VarsOf(c, Without(ts, j)) + TripleVars(c, ts[j])
  {
    forall v
      ensures v in VarsOf(c, ts) <==> v in VarsOf(c, Without(ts, j)) || v in TripleVars(c, ts[j])
    {
      if v in VarsOf(c, ts) {
        var t :| t in ts && v in TripleVars(c, t);
        WithoutContains(ts, j, t);
      }
      WithoutContains(ts, j, ts[j]);
      if v in VarsOf(c, Without(ts, j)) {
        var t :| t in Without(ts, j) && v in TripleVars(c, t);
        WithoutContains(ts, j, t);
      }
    }
  }

  lemma AllHoldWithout(d: Data, c: Context, ts: seq<SparqlTriple>, j: nat, m: Mapping)
    requires j < |ts|
    ensures MatchesAll(d, c, ts, m) <==> MatchesAll(d, c, Without(ts, j), m) && TripleHolds(d, c, ts[j], m)
  {
    hide TripleHolds, MatchesAll;
    AllHoldIff(d, c, ts, m);
    AllHoldIff(d, c, Without(ts, j), m);
    forall t: SparqlTriple
      ensures t in ts <==> t == ts[j] || t in Without(ts, j)
    {
      WithoutContains(ts, j, t);
    }
  }

  /** A triple with variables of its own: the solutions are those of the other triples, with these
      variables added such that the triple holds. */
  lemma OwnTriple(d: Data, c: Context, ts: seq<SparqlTriple>, j: nat, s: Var, vars: set<Var>, m: Mapping)
    requires j < |ts| && TripleVars(c, ts[j]) == {s} + vars && s !in vars && VarsOf(c, Without(ts, j)) !! vars
    ensures OwnSolution(d, c, BasicGraphPattern(ts), m)
       <==> BaseAnd(d, c, Without(ts, j), s, vars, n => TripleHolds(d, c, ts[j], n), m)
  {
    hide MatchesAll, VarsOf, TripleVars, TripleHolds, Without;
    var rest := Without(ts, j);
    VarsWithout(c, ts, j);
    AllHoldWithout(d, c, ts, j, m);
    AllHoldAgree(d, c, rest, m, m - vars);
    if vars <= m.Keys {
      assert m.Keys == (m - vars).Keys + vars;
    }
    assert m.Keys == VarsOf(c, ts) <==> vars <= m.Keys && (m - vars).Keys == VarsOf(c, rest) + {s};
  }

  function WithColumn(t: SparqlTriple, column: AdditionalColumn, p: Var): SparqlTriple {
    t.(additionalScanColumns := t.additionalScanColumns + [(column, p)])
  }

  lemma ColumnHolds(d: Data, c: Context, t: SparqlTriple, column: AdditionalColumn, s: Var, p: Var, m: Mapping)
    requires (if column.SubjectPattern? then t.s else t.o) == Variable(s) && KindOf(t) == OrdinaryScan
    ensures TripleVars(c, WithColumn(t, column, p)) == TripleVars(c, t) + {p}
    ensures TripleHolds(d, c, WithColumn(t, column, p), m)
       <==> TripleHolds(d, c, t, m) && p in m && m[p] == d.patternOf(m[s])
  {
    var u := WithColumn(t, column, p);
    var n := |t.additionalScanColumns|;
    assert u.additionalScanColumns[n] == (column, p);
    assert forall i | 0 <= i < n :: u.additionalScanColumns[i] == t.additionalScanColumns[i];
    assert ColumnVars(u) == ColumnVars(t) + {p};
    assert TripleVars(c, u) == TripleVars(c, t) + {p};
    assert s in TripleVars(c, t);
    if TripleVars(c, u) <= m.Keys {
      assert MatchesScan(d, c, u, m) <==> MatchesScan(d, c, t, m);
      assert ColumnSource(u, column, m) == m[s];
    }
  }

  /** Other scans than the ordinary ones have no such column. */
  lemma ColumnIgnored(d: Data, c: Context, t: SparqlTriple, column: AdditionalColumn, p: Var, m: Mapping)
    requires KindOf(t) != OrdinaryScan
    ensures TripleVars(c, WithColumn(t, column, p)) == TripleVars(c, t)
    ensures TripleHolds(d, c, WithColumn(t, column, p), m) <==> TripleHolds(d, c, t, m)
  {
    var u := WithColumn(t, column, p);
    if TripleVars(c, u) <= m.Keys {
      assert MatchesScan(d, c, u, m) <==> MatchesScan(d, c, t, m);
    }
  }

  /** The triple mentions the subject variable where the column takes its pattern from. */
  predicate IsSourceOf(t: SparqlTriple, column: AdditionalColumn, s: Var) {
    (if column.SubjectPattern? then t.s else t.o) == Variable(s)
  }

  lemma ColumnMatches(d: Data, c: Context, ts: seq<SparqlTriple>, k: nat, column: AdditionalColumn, s: Var, p: Var, m: Mapping)
    requires k < |ts| && IsSourceOf(ts[k], column, s) && KindOf(ts[k]) == OrdinaryScan
    ensures var us := ts[k := WithColumn(ts[k], column, p)];
            && VarsOf(c, us) == VarsOf(c, ts) + {p} && s in VarsOf(c, ts)
            && (MatchesAll(d, c, us, m) <==> MatchesAll(d, c, ts, m) && p in m && m[p] == d.patternOf(m[s]))
  {
    var us := ts[k := WithColumn(ts[k], column, p)];
    assert s in TripleVars(c, ts[k]);
    assert Without(us, k) == Without(ts, k);
    hide MatchesAll, VarsOf, TripleVars, TripleHolds, Without, WithColumn, KindOf;
    ColumnHolds(d, c, ts[k], column, s, p, m);
    VarsWithout(c, ts, k);
    VarsWithout(c, us, k);
    AllHoldWithout(d, c, ts, k, m);
    AllHoldWithout(d, c, us, k, m);
  }

  /** Another column for one of the triples that mention `s`, if this triple is an ordinary scan: the
      solutions are those of the triples as they were, with the pattern of `s` added. */
  lemma OwnColumn(d: Data, c: Context, ts: seq<SparqlTriple>, k: nat, column: AdditionalColumn, s: Var, p: Var, m: Mapping)
    requires k < |ts| && IsSourceOf(ts[k], column, s) && KindOf(ts[k]) == OrdinaryScan
    requires p !in VarsOf(c, ts)
    ensures OwnSolution(d, c, BasicGraphPattern(ts[k := WithColumn(ts[k], column, p)]), m)
       <==> BaseAnd(d, c, ts, s, {p}, n => s in n && p in n && n[p] == d.patternOf(n[s]), m)
  {
    hide MatchesAll, VarsOf, WithColumn, KindOf;
    ColumnMatches(d, c, ts, k, column, s, p, m);
    AllHoldAgree(d, c, ts, m, m - {p});
    assert VarsOf(c, ts) + {s} == VarsOf(c, ts);
    assert m.Keys == VarsOf(c, ts) + {p} <==> p in m && (m - {p}).Keys == VarsOf(c, ts);
  }

  /** For any other scan, the solutions are those of the triples as they were, and nothing more. */
  lemma NoColumn(d: Data, c: Context, ts: seq<SparqlTriple>, k: nat, column: AdditionalColumn, p: Var, m: Mapping)
    requires k < |ts| && KindOf(ts[k]) != OrdinaryScan
    ensures var us := ts[k := WithColumn(ts[k], column, p)];
            && VarsOf(c, us) == VarsOf(c, ts)
            && (OwnSolution(d, c, BasicGraphPattern(us), m) <==> OwnSolution(d, c, BasicGraphPattern(ts), m))
  {
    var us := ts[k := WithColumn(ts[k], column, p)];
    assert Without(us, k) == Without(ts, k);
    hide MatchesAll, VarsOf, TripleVars, TripleHolds, Without, WithColumn, KindOf;
    ColumnIgnored(d, c, ts[k], column, p, m);
    VarsWithout(c, ts, k);
    VarsWithout(c, us, k);
    AllHoldWithout(d, c, ts, k, m);
    AllHoldWithout(d, c, us, k, m);
  }

  // ---- The whole pattern --------------------------------------------------------------------------------

  /** What surrounds the basic graph pattern. */
  datatype Surroundings = Surroundings(before: seq<Operation>, after: seq<Operation>, filters: seq<Filter>)

  function SurroundingsOf(p: GraphPattern, i: nat): Surroundings
    requires i < |p.operations|
  {
    Surroundings(p.operations[..i], p.operations[i + 1..], p.filters)
  }

  ghost predicate Separate(w: Surroundings, vars: set<Var>) {
    && AllWellFormed(w.before) && AllWellFormed(w.after) && FiltersWellFormed(w.filters)
    && AbsentFromAll(vars, w.before) && AbsentFromAll(vars, w.after) && AbsentFromFilters(vars, w.filters)
  }

  /** The solution `m` comes from joining `n` with the solution `k` of what precedes it. */
  ghost predicate Through(d: Data, c: Context, w: Surroundings, k: Mapping, n: Mapping, m: Mapping) {
    Run(d, c, w.before, map[], k) && Compatible(k, n) && Run(d, c, w.after, k + n, m) && FiltersHold(w.filters, m)
  }

  ghost predicate BaseSolution(d: Data, c: Context, w: Surroundings, ts: seq<SparqlTriple>, s: Var, m: Mapping) {
    exists k, n :: Base(d, c, ts, s, n) && Through(d, c, w, k, n, m)
  }

  lemma SolutionThrough(d: Data, c: Context, p: GraphPattern, i: nat, m: Mapping)
    requires i < |p.operations| && p.operations[i].BasicGraphPattern?
    ensures IsSolution(d, c, p, m)
       <==> exists k, n :: OwnSolution(d, c, p.operations[i], n) && Through(d, c, SurroundingsOf(p, i), k, n, m)
  {
    hide Run, OwnSolution, FiltersHold;
    var w, op := SurroundingsOf(p, i), p.operations[i];
    var upTo := w.before + [op];
    assert p.operations == upTo + w.after;
    RunAppend(d, c, upTo, w.after, map[], m);
    assert upTo[..|upTo| - 1] == w.before && upTo[|upTo| - 1] == op;
    if IsSolution(d, c, p, m) {
      var l :| Run(d, c, upTo, map[], l) && Run(d, c, w.after, l, m);
      var k := LastStep(d, c, upTo, map[], l);
      var n :| OwnSolution(d, c, op, n) && Compatible(k, n) && l == k + n;
      assert Through(d, c, w, k, n, m);
    }
    if k, n :| OwnSolution(d, c, op, n) && Through(d, c, w, k, n, m) {
      assert Step(d, c, op, k, k + n);
      OneMoreStep(d, c, upTo, map[], k, k + n);
      RunBothWith(d, c, upTo, w.after, map[], k + n, m);
    }
  }

  lemma ThroughExtends(d: Data, c: Context, w: Surroundings, k: Mapping, n: Mapping, m: Mapping)
    requires Through(d, c, w, k, n, m)
    ensures Extends(m, n)
  {
    RunExtends(d, c, w.after, k + n, m);
    assert forall v | v in n :: v in k + n && (k + n)[v] == n[v];
  }

  /** What surrounds the pattern does not see the variables that it does not contain. */
  lemma ThroughFrame(d: Data, c: Context, w: Surroundings, e: Mapping, k: Mapping, n: Mapping, m: Mapping)
    requires Separate(w, e.Keys) && GraphVars(c) !! e.Keys && n.Keys !! e.Keys
    ensures Through(d, c, w, k, n + e, m) <==> Extends(m, e) && Through(d, c, w, k, n, m - e.Keys)
  {
    hide Run, FiltersHold, AllWellFormed, AbsentFromAll, AbsentFromFilters, FiltersWellFormed;
    if Run(d, c, w.before, map[], k) {
      RunAvoids(d, c, w.before, e.Keys, map[], k);
      assert Compatible(k, n + e) <==> Compatible(k, n);
      assert k + (n + e) == (k + n) + e;
      RunFrame(d, c, w.after, e, k + n, m);
      if Extends(m, e) {
        AddedIff(m - e.Keys, e, m);
        FiltersFrame(w.filters, e, m - e.Keys);
      }
    }
  }

  /** The solutions are the base solutions, with `vars` added such that `condition` holds. */
  lemma SolutionIff(d: Data, c: Context, p: GraphPattern, i: nat, ts: seq<SparqlTriple>, s: Var, vars: set<Var>,
                    condition: Mapping -> bool, m: Mapping)
    requires i < |p.operations| && p.operations[i].BasicGraphPattern? && Separate(SurroundingsOf(p, i), vars)
    requires s !in vars && VarsOf(c, ts) !! vars && GraphVars(c) !! vars
    requires DependsOn(condition, {s} + vars)
    requires forall n :: OwnSolution(d, c, p.operations[i], n) <==> BaseAnd(d, c, ts, s, vars, condition, n)
    ensures IsSolution(d, c, p, m) <==> vars <= m.Keys && BaseSolution(d, c, SurroundingsOf(p, i), ts, s, m - vars) && condition(m)
  {
    hide OwnSolution, Through, Separate, IsSolution, MatchesAll, VarsOf, SurroundingsOf;
    var w := SurroundingsOf(p, i);
    SolutionThrough(d, c, p, i, m);
    if IsSolution(d, c, p, m) {
      var k, n :| OwnSolution(d, c, p.operations[i], n) && Through(d, c, w, k, n, m);
      var e := map v | v in vars :: n[v];
      assert e.Keys == vars;
      AddedIff(n - vars, e, n);
      ThroughFrame(d, c, w, e, k, n - vars, m);
      ThroughExtends(d, c, w, k, n, m);
      assert AgreeOn({s} + vars, m, n);
    }
    if vars <= m.Keys && BaseSolution(d, c, w, ts, s, m - vars) && condition(m) {
      var k, n :| Base(d, c, ts, s, n) && Through(d, c, w, k, n, m - vars);
      var e := map v | v in vars :: m[v];
      assert e.Keys == vars;
      ThroughFrame(d, c, w, e, k, n, m);
      AddedIff(n, e, n + e);
      ThroughExtends(d, c, w, k, n + e, m);
      assert AgreeOn({s} + vars, m, n + e);
      assert BaseAnd(d, c, ts, s, vars, condition, n + e);
    }
  }
}
