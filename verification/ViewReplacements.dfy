/**
 Finding the triples that a scan of a materialized view can replace, in two passes over the triples.
 */
module ViewReplacements {
  import opened Tables
  import opened Datasets
  import opened GraphPatterns
  import opened MaterializedViews

  /** Positions of triples, by a variable. */
  type Index = map<Var, seq<nat>>

  ghost function ViewSet(views: seq<View>): set<View> {
    set v | v in views
  }

  function Push(m: Index, v: Var, n: nat): Index {
    m[v := (if v in m then m[v] else []) + [n]]
  }

  function At(m: Index, v: Var): seq<nat> {
    if v in m then m[v] else []
  }

  ghost predicate Increasing(ns: seq<nat>) {
    forall i, j | 0 <= i < j < |ns| :: ns[i] < ns[j]
  }

  // ---- The first pass -------------------------------------------------------------------------------------

  ghost predicate IsRightOf(views: set<View>, ts: seq<SparqlTriple>, v: Var, n: nat) {
    n < |ts| && IsChainRight(views, ts[n]) && ts[n].s == Variable(v)
  }

  ghost predicate IsLeftOf(views: set<View>, ts: seq<SparqlTriple>, v: Var, n: nat) {
    n < |ts| && IsChainLeft(views, ts[n]) && ts[n].o == Variable(v)
  }

  ghost predicate AreRightsOf(ns: seq<nat>, views: set<View>, ts: seq<SparqlTriple>, v: Var, k: nat) {
    Increasing(ns) && forall n: nat :: n in ns <==> n < k && IsRightOf(views, ts, v, n)
  }

  ghost predicate AreLeftsOf(ns: seq<nat>, views: set<View>, ts: seq<SparqlTriple>, v: Var, k: nat) {
    forall n: nat :: n in ns <==> n < k && IsLeftOf(views, ts, v, n)
  }

  /** The map has the first `k` triples that can be the right side of a chain, by their subjects. */
  ghost predicate HasRights(m: Index, views: set<View>, ts: seq<SparqlTriple>, k: nat) {
    forall v :: AreRightsOf(At(m, v), views, ts, v, k)
  }

  /** Likewise for the left side, by their objects. */
  ghost predicate HasLefts(m: Index, views: set<View>, ts: seq<SparqlTriple>, k: nat) {
    forall v :: AreLeftsOf(At(m, v), views, ts, v, k)
  }

  lemma OneMoreRight(ns: seq<nat>, views: set<View>, ts: seq<SparqlTriple>, v: Var, k: nat)
    requires AreRightsOf(ns, views, ts, v, k) && k < |ts|
    ensures if IsChainRight(views, ts[k]) && ts[k].s == Variable(v) then AreRightsOf(ns + [k], views, ts, v, k + 1)
            else AreRightsOf(ns, views, ts, v, k + 1)
  {
    hide IsChainRight;
    forall i | 0 <= i < |ns|
      ensures ns[i] < k
    {
      assert ns[i] in ns;
    }
  }

  lemma OneMoreLeft(ns: seq<nat>, views: set<View>, ts: seq<SparqlTriple>, v: Var, k: nat)
    requires AreLeftsOf(ns, views, ts, v, k) && k < |ts|
    ensures if IsChainLeft(views, ts[k]) && ts[k].o == Variable(v) then AreLeftsOf(ns + [k], views, ts, v, k + 1)
            else AreLeftsOf(ns, views, ts, v, k + 1)
  {
    hide IsChainLeft;
  }

  lemma PushRight(m: Index, views: set<View>, ts: seq<SparqlTriple>, k: nat)
    requires HasRights(m, views, ts, k) && k < |ts|
    ensures if IsChainRight(views, ts[k]) then HasRights(Push(m, ts[k].s.name, k), views, ts, k + 1)
            else HasRights(m, views, ts, k + 1)
  {
    hide AreRightsOf;
    forall v
      ensures if IsChainRight(views, ts[k]) && ts[k].s == Variable(v) then AreRightsOf(At(m, v) + [k], views, ts, v, k + 1)
              else AreRightsOf(At(m, v), views, ts, v, k + 1)
    {
      OneMoreRight(At(m, v), views, ts, v, k);
    }
    if IsChainRight(views, ts[k]) {
      var name := ts[k].s.name;
      assert forall v :: At(Push(m, name, k), v) == if v == name then At(m, v) + [k] else At(m, v);
    }
  }

  lemma PushLeft(m: Index, views: set<View>, ts: seq<SparqlTriple>, k: nat)
    requires HasLefts(m, views, ts, k) && k < |ts|
    ensures if IsChainLeft(views, ts[k]) then HasLefts(Push(m, ts[k].o.name, k), views, ts, k + 1)
            else HasLefts(m, views, ts, k + 1)
  {
    hide AreLeftsOf;
    forall v
      ensures if IsChainLeft(views, ts[k]) && ts[k].o == Variable(v) then AreLeftsOf(At(m, v) + [k], views, ts, v, k + 1)
              else AreLeftsOf(At(m, v), views, ts, v, k + 1)
    {
      OneMoreLeft(At(m, v), views, ts, v, k);
    }
    if IsChainLeft(views, ts[k]) {
      var name := ts[k].o.name;
      assert forall v :: At(Push(m, name, k), v) == if v == name then At(m, v) + [k] else At(m, v);
    }
  }

  method CollectCandidates(ts: seq<SparqlTriple>, views: seq<View>) returns (chainLeft: Index, chainRight: Index)
    ensures HasLefts(chainLeft, ViewSet(views), ts, |ts|) && HasRights(chainRight, ViewSet(views), ts, |ts|)
  {
    ghost var vs := ViewSet(views);
    var predicateInView := set v, p | v in views && p in ViewPredicates(v) :: p;
    chainLeft, chainRight := map[], map[];
    for tripleIdx := 0 to |ts|
      invariant HasLefts(chainLeft, vs, ts, tripleIdx) && HasRights(chainRight, vs, ts, tripleIdx)
    {
      var triple := ts[tripleIdx];
      PushLeft(chainLeft, vs, ts, tripleIdx);
      PushRight(chainRight, vs, ts, tripleIdx);
      hide HasLefts, HasRights;
      var iri := GetSimplePredicate(triple.p);
      if iri.None? || iri.value !in predicateInView {
        assert !KnownPredicate(vs, triple);
        continue;
      }
      assert KnownPredicate(vs, triple);
      if !triple.o.Variable? {
        continue;
      }
      if triple.s.Variable? {
        chainRight := Push(chainRight, triple.s.name, tripleIdx);
      }
      if triple.s != triple.o {
        chainLeft := Push(chainLeft, triple.o.name, tripleIdx);
      }
    }
  }

  // ---- Chains ---------------------------------------------------------------------------------------------

  /** Some view replaces the two triples. */
  ghost predicate Linked(views: set<View>, ts: seq<SparqlTriple>, l: nat, r: nat) {
    exists v :: ReplacesChain(views, v, ts, l, r)
  }

  /** The triples that are replaced are those of linked pairs from the lists. */
  ghost predicate AreLinks(scans: seq<set<nat>>, views: set<View>, ts: seq<SparqlTriple>, ls: set<nat>, rs: set<nat>) {
    && (forall c | c in scans :: exists l, r :: l in ls && r in rs && Linked(views, ts, l, r) && c == {l, r})
    && forall l, r | l in ls && r in rs && Linked(views, ts, l, r) :: {l, r} in scans
  }

  /** One pair of triples: a scan for each of the views that have their predicates. */
  method MakeScansForPair(ts: seq<SparqlTriple>, views: seq<View>, l: nat, r: nat) returns (scans: seq<set<nat>>)
    requires l < |ts| && r < |ts| && IsChainLeft(ViewSet(views), ts[l]) && IsChainRight(ViewSet(views), ts[r])
    requires ts[r].s == ts[l].o
    ensures scans != [] <==> Linked(ViewSet(views), ts, l, r)
    ensures forall c | c in scans :: c == {l, r}
  {
    hide IsChainLeft, IsChainRight;
    scans := [];
    for k := 0 to |views|
      invariant scans != [] <==> exists j: nat :: j < k && ReplacesChain(ViewSet(views), views[j], ts, l, r)
      invariant forall c | c in scans :: c == {l, r}
    {
      var view := views[k];
      assert view in ViewSet(views);
      if !view.Chain? || Some(view.first) != GetSimplePredicate(ts[l].p) || Some(view.second) != GetSimplePredicate(ts[r].p) {
        continue;
      }
      if !ts[l].s.Variable? && !view.subjectIsFirstColumn {
        continue;
      }
      assert ReplacesChain(ViewSet(views), views[k], ts, l, r);
      scans := scans + [{l, r}];
    }
    if Linked(ViewSet(views), ts, l, r) {
      var v :| ReplacesChain(ViewSet(views), v, ts, l, r);
      var j: nat :| j < |views| && views[j] == v;
    }
  }

  ghost function SetOf(ns: seq<nat>): set<nat> {
    set n | n in ns
  }

  lemma MoreLinks(scans: seq<set<nat>>, more: seq<set<nat>>, views: set<View>, ts: seq<SparqlTriple>, ls: set<nat>,
                  rs: set<nat>, ls': set<nat>, rs': set<nat>)
    requires AreLinks(scans, views, ts, ls, rs) && AreLinks(more, views, ts, ls', rs')
    requires ls == ls' || rs == rs'
    ensures AreLinks(scans + more, views, ts, ls + ls', rs + rs')
            || (ls != ls' && rs != rs')
  {
    hide Linked;
  }

  /** All triples that meet at one variable. */
  method MakeScansForVariable(ts: seq<SparqlTriple>, views: seq<View>, v: Var, lefts: seq<nat>, rights: seq<nat>)
    returns (scans: seq<set<nat>>)
    requires forall n | n in lefts :: IsLeftOf(ViewSet(views), ts, v, n)
    requires forall n | n in rights :: IsRightOf(ViewSet(views), ts, v, n)
    ensures AreLinks(scans, ViewSet(views), ts, SetOf(lefts), SetOf(rights))
  {
    ghost var vs := ViewSet(views);
    scans := [];
    for i := 0 to |rights|
      invariant AreLinks(scans, vs, ts, SetOf(lefts), SetOf(rights[..i]))
    {
      var r := rights[i];
      var forR: seq<set<nat>> := [];
      for j := 0 to |lefts|
        invariant AreLinks(forR, vs, ts, SetOf(lefts[..j]), {r})
      {
        var l := lefts[j];
        assert l in lefts && r in rights;
        hide Linked, AreLinks, IsChainLeft, IsChainRight, ViewSet;
        var pair := MakeScansForPair(ts, views, l, r);
        PairIsLinks(pair, vs, ts, l, r);
        assert SetOf(lefts[..j + 1]) == SetOf(lefts[..j]) + {l};
        MoreLinks(forR, pair, vs, ts, SetOf(lefts[..j]), {r}, {l}, {r});
        forR := forR + pair;
      }
      assert lefts[..|lefts|] == lefts;
      assert SetOf(rights[..i + 1]) == SetOf(rights[..i]) + {r};
      MoreLinks(scans, forR, vs, ts, SetOf(lefts), SetOf(rights[..i]), SetOf(lefts), {r});
      scans := scans + forR;
    }
    assert rights[..|rights|] == rights;
  }

  lemma PairIsLinks(pair: seq<set<nat>>, views: set<View>, ts: seq<SparqlTriple>, l: nat, r: nat)
    requires pair != [] <==> Linked(views, ts, l, r)
    requires forall c | c in pair :: c == {l, r}
    ensures AreLinks(pair, views, ts, {l}, {r})
  {
    hide Linked;
    assert pair != [] ==> pair[0] in pair;
  }

  /** All chains. */
  method MakeScansFromChains(ts: seq<SparqlTriple>, views: seq<View>, chainLeft: Index, chainRight: Index)
    returns (scans: seq<set<nat>>)
    requires HasLefts(chainLeft, ViewSet(views), ts, |ts|) && HasRights(chainRight, ViewSet(views), ts, |ts|)
    ensures forall c :: c in scans <==> exists l: nat, r: nat :: Linked(ViewSet(views), ts, l, r) && c == {l, r}
  {
    ghost var vs := ViewSet(views);
    scans := [];
    var rest := chainLeft.Keys;
    while rest != {}
      invariant rest <= chainLeft.Keys
      invariant forall c :: c in scans
                       <==> exists l: nat, r: nat :: MeetAt(vs, ts, chainLeft.Keys - rest, l, r) && c == {l, r}
      decreases |rest|
    {
      var v :| v in rest;
      var lefts, rights := chainLeft[v], At(chainRight, v);
      assert lefts == At(chainLeft, v);
      ghost var done := chainLeft.Keys - rest;
      assert AreLeftsOf(lefts, vs, ts, v, |ts|) && AreRightsOf(rights, vs, ts, v, |ts|);
      var more: seq<set<nat>> := [];
      if v in chainRight {
        more := MakeScansForVariable(ts, views, v, lefts, rights);
      }
      ForVariable(more, vs, ts, v, lefts, rights);
      rest := rest - {v};
      assert chainLeft.Keys - rest == done + {v};
      AddVariable(scans, more, vs, ts, done, v);
      scans := scans + more;
    }
    assert chainLeft.Keys - {} == chainLeft.Keys;
    forall l: nat, r: nat
      ensures MeetAt(vs, ts, chainLeft.Keys, l, r) <==> Linked(vs, ts, l, r)
    {
      MeetSomewhere(vs, ts, chainLeft, l, r);
    }
  }

  /** The two triples are linked and meet at one of the variables. */
  ghost predicate MeetAt(views: set<View>, ts: seq<SparqlTriple>, vars: set<Var>, l: nat, r: nat) {
    Linked(views, ts, l, r) && l < |ts| && ts[l].o.Variable? && ts[l].o.name in vars
  }

  lemma MeetSomewhere(views: set<View>, ts: seq<SparqlTriple>, chainLeft: Index, l: nat, r: nat)
    requires HasLefts(chainLeft, views, ts, |ts|)
    ensures MeetAt(views, ts, chainLeft.Keys, l, r) <==> Linked(views, ts, l, r)
  {
    if Linked(views, ts, l, r) {
      var v :| ReplacesChain(views, v, ts, l, r);
      hide IsChainLeft;
      assert ts[l].o.Variable? by {
        LeftHasVariable(views, ts[l]);
      }
      assert AreLeftsOf(At(chainLeft, ts[l].o.name), views, ts, ts[l].o.name, |ts|);
      assert IsLeftOf(views, ts, ts[l].o.name, l);
    }
  }

  lemma LeftHasVariable(views: set<View>, t: SparqlTriple)
    requires IsChainLeft(views, t)
    ensures t.o.Variable?
  {}

  ghost predicate AreFor(scans: seq<set<nat>>, views: set<View>, ts: seq<SparqlTriple>, v: Var) {
    forall c :: c in scans <==> exists l: nat, r: nat :: MeetAt(views, ts, {v}, l, r) && c == {l, r}
  }

  lemma ForVariable(scans: seq<set<nat>>, views: set<View>, ts: seq<SparqlTriple>, v: Var, lefts: seq<nat>, rights: seq<nat>)
    requires AreLeftsOf(lefts, views, ts, v, |ts|) && AreRightsOf(rights, views, ts, v, |ts|)
    requires AreLinks(scans, views, ts, SetOf(lefts), SetOf(rights)) || (rights == [] && scans == [])
    ensures AreFor(scans, views, ts, v)
  {
    forall l: nat, r: nat
      ensures MeetAt(views, ts, {v}, l, r) <==> l in lefts && r in rights && Linked(views, ts, l, r)
    {
      LinkedSides(views, ts, v, l, r);
    }
    hide Linked, AreLeftsOf, AreRightsOf, MeetAt;
  }

  lemma LinkedSides(views: set<View>, ts: seq<SparqlTriple>, v: Var, l: nat, r: nat)
    ensures MeetAt(views, ts, {v}, l, r) <==> IsLeftOf(views, ts, v, l) && IsRightOf(views, ts, v, r) && Linked(views, ts, l, r)
  {
    hide KnownPredicate;
    if Linked(views, ts, l, r) {
      var w :| ReplacesChain(views, w, ts, l, r);
    }
  }

  lemma AddVariable(scans: seq<set<nat>>, more: seq<set<nat>>, views: set<View>, ts: seq<SparqlTriple>, done: set<Var>, v: Var)
    requires forall c :: c in scans <==> exists l: nat, r: nat :: MeetAt(views, ts, done, l, r) && c == {l, r}
    requires AreFor(more, views, ts, v)
    ensures forall c :: c in scans + more <==> exists l: nat, r: nat :: MeetAt(views, ts, done + {v}, l, r) && c == {l, r}
  {
    assert forall l: nat, r: nat :: MeetAt(views, ts, done + {v}, l, r)
                                    <==> MeetAt(views, ts, done, l, r) || MeetAt(views, ts, {v}, l, r);
    hide MeetAt;
  }

  // ---- Stars ----------------------------------------------------------------------------------------------

  /** The objects of the first `k` members that differ from the subject. */
  ghost predicate HasObjects(objects: set<Var>, ts: seq<SparqlTriple>, s: Var, members: seq<nat>, k: nat)
    requires k <= |members|
  {
    forall x :: x in objects <==> x != s && exists i: nat :: i < k && HasObject(ts, members[i], x)
  }

  ghost predicate HasObject(ts: seq<SparqlTriple>, n: nat, x: Var) {
    n < |ts| && ts[n].o == Variable(x)
  }

  /** The arms among the first `k` members, by their predicates. */
  ghost predicate HasArms(arms: map<PredicateName, nat>, views: set<View>, ts: seq<SparqlTriple>, s: Var, members: seq<nat>,
                          k: nat)
    requires k <= |members|
  {
    && (forall p | p in arms :: IsArm(views, ts, s, arms[p]) && GetSimplePredicate(ts[arms[p]].p) == Some(p))
    && forall i: nat | i < k && HasOwnObject(views, ts, s, members[i]) ::
         GetSimplePredicate(ts[members[i]].p).Some? && GetSimplePredicate(ts[members[i]].p).value in arms
  }

  lemma OwnObjectIff(objects: set<Var>, views: set<View>, ts: seq<SparqlTriple>, s: Var, members: seq<nat>, k: nat)
    requires AreRightsOf(members, views, ts, s, |ts|) && k < |members| && HasObjects(objects, ts, s, members, k)
    ensures members[k] < |ts| && ts[members[k]].o.Variable? && GetSimplePredicate(ts[members[k]].p).Some?
    ensures HasOwnObject(views, ts, s, members[k])
       <==> ts[members[k]].o.name != s && ts[members[k]].o.name !in objects
  {
    var n := members[k];
    assert n in members && IsRightOf(views, ts, s, n);
    var x := ts[n].o.name;
    hide KnownPredicate;
    if x != s && x !in objects {
      forall m | 0 <= m < n && IsChainRight(views, ts[m]) && ts[m].s == Variable(s) && ts[m].o != Variable(s)
        ensures ts[m].o != ts[n].o
      {
        assert IsRightOf(views, ts, s, m);
        var i: nat :| i < |members| && members[i] == m;
        assert i < k;
        assert HasObject(ts, members[i], ts[m].o.name) && ts[m].o.name in objects;
      }
    }
    if x in objects {
      var i: nat :| i < k && HasObject(ts, members[i], x);
      assert members[i] in members && IsRightOf(views, ts, s, members[i]);
    }
  }

  lemma OneMoreObject(objects: set<Var>, ts: seq<SparqlTriple>, s: Var, members: seq<nat>, k: nat, x: Var)
    requires k < |members| && HasObjects(objects, ts, s, members, k) && HasObject(ts, members[k], x)
    ensures HasObjects(if x == s then objects else objects + {x}, ts, s, members, k + 1)
  {}

  lemma OneMoreArm(arms: map<PredicateName, nat>, views: set<View>, ts: seq<SparqlTriple>, s: Var, members: seq<nat>, k: nat,
                   p: PredicateName)
    requires AreRightsOf(members, views, ts, s, |ts|) && k < |members| && members[k] < |ts|
    requires HasArms(arms, views, ts, s, members, k) && GetSimplePredicate(ts[members[k]].p) == Some(p)
    ensures !HasOwnObject(views, ts, s, members[k]) ==> HasArms(arms, views, ts, s, members, k + 1)
    ensures p in arms ==> HasArms(arms, views, ts, s, members, k + 1)
    ensures HasOwnObject(views, ts, s, members[k]) && p !in arms
            ==> HasArms(arms[p := members[k]], views, ts, s, members, k + 1)
  {
    var n := members[k];
    hide HasOwnObject;
    if HasOwnObject(views, ts, s, n) && p !in arms {
      forall m: nat | m < n && HasOwnObject(views, ts, s, m)
        ensures GetSimplePredicate(ts[m].p) != Some(p)
      {
        OwnIsRight(views, ts, s, m);
        var i: nat :| i < |members| && members[i] == m;
        assert i < k;
      }
      assert IsArm(views, ts, s, n) by {
        OwnIsRight(views, ts, s, n);
      }
    }
    hide IsArm;
  }

  lemma OwnIsRight(views: set<View>, ts: seq<SparqlTriple>, s: Var, n: nat)
    requires HasOwnObject(views, ts, s, n)
    ensures n < |ts| && IsRightOf(views, ts, s, n) && GetSimplePredicate(ts[n].p).Some?
  {}

  ghost predicate IsCandidate(names: set<PredicateName>, v: View) {
    exists p :: p in names && p in ViewPredicates(v)
  }

  lemma MoreCandidates(names: set<PredicateName>, name: PredicateName)
    ensures forall v :: IsCandidate(names + {name}, v) <==> IsCandidate(names, v) || name in ViewPredicates(v)
  {
    hide ViewPredicates;
    assert name in names + {name};
  }

  /** The members with a predicate and an object of their own, by their predicates. */
  method CollectArms(ts: seq<SparqlTriple>, views: seq<View>, s: Var, members: seq<nat>)
    returns (predicateToTripleIdx: map<PredicateName, nat>, candidateViews: set<View>)
    requires AreRightsOf(members, ViewSet(views), ts, s, |ts|)
    ensures HasArms(predicateToTripleIdx, ViewSet(views), ts, s, members, |members|)
    ensures forall v :: v in candidateViews <==> v in views && IsCandidate(predicateToTripleIdx.Keys, v)
  {
    ghost var vs := ViewSet(views);
    var objects: set<Var> := {};
    predicateToTripleIdx, candidateViews := map[], {};
    assert HasObjects(objects, ts, s, members, 0) && HasArms(predicateToTripleIdx, vs, ts, s, members, 0);
    assert forall v :: !IsCandidate({}, v);
    hide AreRightsOf, IsRightOf, IsArm, HasOwnObject, HasObjects, HasArms, IsCandidate, ViewPredicates, ViewSet;
    for k := 0 to |members|
      invariant HasObjects(objects, ts, s, members, k) && HasArms(predicateToTripleIdx, vs, ts, s, members, k)
      invariant forall v :: v in candidateViews <==> v in views && IsCandidate(predicateToTripleIdx.Keys, v)
    {
      var idx := members[k];
      OwnObjectIff(objects, vs, ts, s, members, k);
      var triple := ts[idx];
      var name := GetSimplePredicate(triple.p).value;
      OneMoreArm(predicateToTripleIdx, vs, ts, s, members, k, name);
      OneMoreObject(objects, ts, s, members, k, triple.o.name);
      if triple.o == Variable(s) || triple.o.name in objects {
        assert triple.o != Variable(s) ==> objects + {triple.o.name} == objects;
        continue;
      }
      objects := objects + {triple.o.name};
      if name in predicateToTripleIdx {
        continue;
      }
      MoreCandidates(predicateToTripleIdx.Keys, name);
      assert predicateToTripleIdx[name := idx].Keys == predicateToTripleIdx.Keys + {name};
      predicateToTripleIdx := predicateToTripleIdx[name := idx];
      candidateViews := candidateViews + set v | v in views && name in ViewPredicates(v);
    }
  }

  /** A scan for each view of which all arms are among the triples of the subject. */
  method MakeScansForSubject(ts: seq<SparqlTriple>, views: seq<View>, s: Var, members: seq<nat>) returns (scans: seq<set<nat>>)
    requires AreRightsOf(members, ViewSet(views), ts, s, |ts|)
    requires forall v | v in views && v.Star? :: |v.arms| >= 2
    ensures forall n: nat :: InSome(scans, n) <==> exists v :: ReplacesStar(ViewSet(views), v, ts, s, n)
  {
    ghost var vs := ViewSet(views);
    scans := [];
    if |members| < 2 {
      forall v, n: nat
        ensures !ReplacesStar(vs, v, ts, s, n)
      {
        StarNeedsTwo(vs, v, ts, s, n, members);
      }
      return;
    }
    var arms, candidateViews := CollectArms(ts, views, s, members);
    for k := 0 to |views|
      invariant forall n: nat :: InSome(scans, n) <==> exists j: nat :: j < k && ReplacesStar(vs, views[j], ts, s, n)
    {
      var view := views[k];
      assert view in vs;
      forall n: nat
        ensures ReplacesStar(vs, view, ts, s, n)
           <==> view.Star? && view.arms <= arms.Keys && exists p :: p in view.arms && arms[p] == n
      {
        ReplacesStarIff(vs, view, ts, s, n, members, arms);
      }
      hide ReplacesStar, AreRightsOf, HasArms, ViewSet;
      if view !in candidateViews || !view.Star? {
        assert view.Star? ==> exists p :: p in view.arms by {
          if view.Star? {
            assert view.arms != {};
          }
        }
        continue;
      }
      if view.arms <= arms.Keys {
        var coveredTriples := set p | p in view.arms :: arms[p];
        ScanMore(scans, coveredTriples);
        scans := scans + [coveredTriples];
      }
    }
    forall n: nat, v | ReplacesStar(vs, v, ts, s, n)
      ensures exists j: nat :: j < |views| && ReplacesStar(vs, views[j], ts, s, n)
    {
      assert v in views;
      var j: nat :| j < |views| && views[j] == v;
    }
  }

  ghost predicate InSome(scans: seq<set<nat>>, n: nat) {
    exists c :: c in scans && n in c
  }

  lemma ScanMore(scans: seq<set<nat>>, c: set<nat>)
    ensures forall n: nat :: InSome(scans + [c], n) <==> InSome(scans, n) || n in c
  {
    assert c in scans + [c];
    forall n: nat | InSome(scans, n)
      ensures InSome(scans + [c], n)
    {
      var d :| d in scans && n in d;
      assert d in scans + [c];
    }
  }

  lemma ArmIsMember(views: set<View>, ts: seq<SparqlTriple>, s: Var, n: nat, members: seq<nat>)
    requires AreRightsOf(members, views, ts, s, |ts|) && IsArm(views, ts, s, n)
    ensures n in members && HasOwnObject(views, ts, s, n) && n < |ts|
  {
    OwnIsRight(views, ts, s, n);
  }

  lemma StarNeedsTwo(views: set<View>, v: View, ts: seq<SparqlTriple>, s: Var, n: nat, members: seq<nat>)
    requires AreRightsOf(members, views, ts, s, |ts|)
    ensures ReplacesStar(views, v, ts, s, n) ==> |members| >= 2
  {
    if ReplacesStar(views, v, ts, s, n) {
      var m := OtherArm(views, v, ts, s, n);
      ArmIsMember(views, ts, s, n, members);
      ArmIsMember(views, ts, s, m, members);
    }
  }

  /** Arms with the same predicate are the same. */
  lemma ArmIsUnique(views: set<View>, ts: seq<SparqlTriple>, s: Var, k: nat, l: nat)
    requires IsArm(views, ts, s, k) && IsArm(views, ts, s, l) && GetSimplePredicate(ts[k].p) == GetSimplePredicate(ts[l].p)
    ensures k == l
  {}

  lemma ReplacesStarIff(views: set<View>, v: View, ts: seq<SparqlTriple>, s: Var, n: nat, members: seq<nat>,
                        arms: map<PredicateName, nat>)
    requires AreRightsOf(members, views, ts, s, |ts|) && HasArms(arms, views, ts, s, members, |members|) && v in views
    requires v.Star? ==> |v.arms| >= 2
    ensures ReplacesStar(views, v, ts, s, n)
       <==> v.Star? && v.arms <= arms.Keys && exists p :: p in v.arms && arms[p] == n
  {
    hide AreRightsOf;
    forall m: nat | IsArm(views, ts, s, m)
      ensures m < |ts| && GetSimplePredicate(ts[m].p).Some? && GetSimplePredicate(ts[m].p).value in arms
      ensures arms[GetSimplePredicate(ts[m].p).value] == m
    {
      ArmIsMember(views, ts, s, m, members);
      var i: nat :| i < |members| && members[i] == m;
      ArmIsUnique(views, ts, s, m, arms[GetSimplePredicate(ts[m].p).value]);
    }
    hide IsArm;
    if ReplacesStar(views, v, ts, s, n) {
      forall p | p in v.arms
        ensures p in arms
      {
        var m: nat :| IsArm(views, ts, s, m) && GetSimplePredicate(ts[m].p) == Some(p);
      }
      var p := GetSimplePredicate(ts[n].p).value;
      assert p in v.arms && arms[p] == n;
    }
    if v.Star? && v.arms <= arms.Keys && exists p :: p in v.arms && arms[p] == n {
      forall p | p in v.arms
        ensures IsArm(views, ts, s, arms[p]) && GetSimplePredicate(ts[arms[p]].p) == Some(p)
      {}
    }
  }

  // ---- All replacements -----------------------------------------------------------------------------------

  /** The scans that can replace triples cover exactly those that some view can replace. */
  method MakeJoinReplacementIndexScans(ts: seq<SparqlTriple>, views: seq<View>) returns (scans: seq<set<nat>>)
    requires forall v | v in views && v.Star? :: |v.arms| >= 2
    ensures forall n: nat :: InSome(scans, n) <==> IsReplaceable(ViewSet(views), ts, n)
  {
    ghost var vs := ViewSet(views);
    var chainLeft, chainRight := CollectCandidates(ts, views);
    scans := MakeScansFromChains(ts, views, chainLeft, chainRight);
    ChainsCover(scans, vs, ts);
    var rest := chainRight.Keys;
    assert Covers(scans, vs, ts, {});
    hide HasLefts, Covers, InChain, ViewSet, IsReplaceable;
    while rest != {}
      invariant rest <= chainRight.Keys && Covers(scans, vs, ts, chainRight.Keys - rest)
      decreases |rest|
    {
      var s :| s in rest;
      assert AreRightsOf(At(chainRight, s), vs, ts, s, |ts|);
      var more := MakeScansForSubject(ts, views, s, chainRight[s]);
      MoreStars(scans, more, vs, ts, chainRight.Keys - rest, s);
      assert chainRight.Keys - (rest - {s}) == chainRight.Keys - rest + {s};
      scans, rest := scans + more, rest - {s};
    }
    assert chainRight.Keys - {} == chainRight.Keys;
    forall n: nat
      ensures InSome(scans, n) <==> IsReplaceable(vs, ts, n)
    {
      CoversReplaceable(scans, vs, ts, chainRight, n);
    }
  }

  /** The scans cover all chains, and the stars of these subjects. */
  ghost predicate Covers(scans: seq<set<nat>>, views: set<View>, ts: seq<SparqlTriple>, subjects: set<Var>) {
    forall n: nat :: InSome(scans, n) <==> InChain(views, ts, n) || exists s :: s in subjects && InStar(views, ts, s, n)
  }

  lemma MoreStars(scans: seq<set<nat>>, more: seq<set<nat>>, views: set<View>, ts: seq<SparqlTriple>, subjects: set<Var>, s: Var)
    requires Covers(scans, views, ts, subjects)
    requires forall n: nat :: InSome(more, n) <==> exists v :: ReplacesStar(views, v, ts, s, n)
    ensures Covers(scans + more, views, ts, subjects + {s})
  {
    hide InChain, ReplacesStar;
    assert forall n: nat :: InSome(scans + more, n) <==> InSome(scans, n) || InSome(more, n);
    assert forall n: nat :: InSome(more, n) <==> InStar(views, ts, s, n);
    hide InSome, InStar;
  }

  lemma CoversReplaceable(scans: seq<set<nat>>, views: set<View>, ts: seq<SparqlTriple>, chainRight: Index, n: nat)
    requires HasRights(chainRight, views, ts, |ts|) && Covers(scans, views, ts, chainRight.Keys)
    ensures InSome(scans, n) <==> IsReplaceable(views, ts, n)
  {
    ReplaceableIff(views, ts, n);
    forall s | InStar(views, ts, s, n)
      ensures s in chainRight.Keys
    {
      StarHasMember(views, ts, s, n, chainRight);
    }
    hide InStar, InChain, HasRights, InSome, IsReplaceable;
  }

  ghost predicate InChain(views: set<View>, ts: seq<SparqlTriple>, n: nat) {
    exists m: nat :: Linked(views, ts, n, m) || Linked(views, ts, m, n)
  }

  ghost predicate InStar(views: set<View>, ts: seq<SparqlTriple>, s: Var, n: nat) {
    exists v :: ReplacesStar(views, v, ts, s, n)
  }

  lemma ReplaceableIff(views: set<View>, ts: seq<SparqlTriple>, n: nat)
    ensures IsReplaceable(views, ts, n) <==> InChain(views, ts, n) || exists s :: InStar(views, ts, s, n)
  {
    hide ReplacesChain, ReplacesStar;
    if v, m: nat :| ReplacesChain(views, v, ts, n, m) || ReplacesChain(views, v, ts, m, n) {
      assert Linked(views, ts, n, m) || Linked(views, ts, m, n);
    }
    if m: nat :| Linked(views, ts, n, m) || Linked(views, ts, m, n) {
      if Linked(views, ts, n, m) {
        var v :| ReplacesChain(views, v, ts, n, m);
      } else {
        var v :| ReplacesChain(views, v, ts, m, n);
      }
    }
    if v, s: Var :| ReplacesStar(views, v, ts, s, n) {
      assert InStar(views, ts, s, n);
    }
  }

  lemma ChainsCover(scans: seq<set<nat>>, views: set<View>, ts: seq<SparqlTriple>)
    requires forall c :: c in scans <==> exists l: nat, r: nat :: Linked(views, ts, l, r) && c == {l, r}
    ensures forall n: nat :: InSome(scans, n) <==> InChain(views, ts, n)
  {
    hide Linked;
    forall n: nat
      ensures InSome(scans, n) <==> InChain(views, ts, n)
    {
      if m: nat :| Linked(views, ts, n, m) || Linked(views, ts, m, n) {
        assert Linked(views, ts, n, m) ==> {n, m} in scans;
        assert Linked(views, ts, m, n) ==> {m, n} in scans;
      }
    }
  }

  lemma StarHasMember(views: set<View>, ts: seq<SparqlTriple>, s: Var, n: nat, chainRight: Index)
    requires HasRights(chainRight, views, ts, |ts|) && InStar(views, ts, s, n)
    ensures s in chainRight.Keys
  {
    var v :| ReplacesStar(views, v, ts, s, n);
    OwnIsRight(views, ts, s, n);
    assert AreRightsOf(At(chainRight, s), views, ts, s, |ts|);
  }
}
