/**
 DESCRIBE: all triples of the described resources, and of the blank nodes these lead to.
 */
module Describe {
  import opened Tables

  /** The triples of the active graphs. */
  type Index = seq<Triple>

  /** What the query asks to describe: a fixed resource, or the values of a variable, which need not
      have a column in the result of the WHERE clause. */
  datatype Resource = Iri(id: Id) | Variable(column: Option<nat>)

  // ---- Specification ------------------------------------------------------------------------------

  /** A join matches an undefined id with every value. */
  predicate Matches(id: Id, t: Triple) {
    id == t.s || id == UNDEF
  }

  /** The join of `ids` with the index: a triple once for each id it matches. */
  function Joined(index: Index, ids: set<Id>): (r: seq<Triple>) {
    if index == [] then [] else Hits(index[0], ids) + Joined(index[1..], ids)
  }

  function Hits(t: Triple, ids: set<Id>): seq<Triple> {
    (if t.s in ids then [t] else []) + if UNDEF in ids && t.s != UNDEF then [t] else []
  }

  ghost predicate NoDuplicates(ids: seq<Id>) {
    forall i, j | 0 <= i < j < |ids| :: ids[i] != ids[j]
  }

  ghost function IdsOf(ids: seq<Id>): set<Id> {
    set id | id in ids
  }

  /** A triple leads from `x` to the blank node `y`. */
  ghost predicate Leads(index: Index, isBlank: Id -> bool, x: Id, y: Id) {
    isBlank(y) && exists t :: t in index && Matches(x, t) && t.o == y
  }

  /** Each id on the path leads to the next one. */
  ghost predicate Path(index: Index, isBlank: Id -> bool, path: seq<Id>) {
    && path != []
    && forall i | 0 < i < |path| :: Leads(index, isBlank, path[i - 1], path[i])
  }

  /** There is a path of at least `steps` steps from one of the `seeds` to `x`. */
  ghost predicate Reaches(index: Index, isBlank: Id -> bool, seeds: set<Id>, steps: nat, x: Id) {
    exists path :: Path(index, isBlank, path) && |path| > steps && path[0] in seeds && path[|path| - 1] == x
  }

  /** All blank nodes that the ids lead to directly are in `seen`. */
  ghost predicate LeadsInto(index: Index, isBlank: Id -> bool, ids: set<Id>, seen: set<Id>) {
    forall x, y | x in ids && Leads(index, isBlank, x, y) :: y in seen
  }

  ghost predicate AllReached(index: Index, isBlank: Id -> bool, seeds: set<Id>, ids: set<Id>) {
    forall x | x in ids :: Reaches(index, isBlank, seeds, 1, x)
  }

  // ---- Lemmas -------------------------------------------------------------------------------------

  lemma JoinedIff(index: Index, ids: set<Id>, t: Triple)
    ensures t in Joined(index, ids) <==> t in index && exists id :: id in ids && Matches(id, t)
  {
    if t in index && t.s in ids {
      assert Matches(t.s, t);
    }
    if t in index && UNDEF in ids {
      assert Matches(UNDEF, t);
    }
  }

  lemma JoinedNothing(index: Index)
    ensures Joined(index, {}) == []
  {}

  function ObjectColumn(table: seq<Triple>): (objects: seq<Id>)
    ensures |objects| == |table| && forall i | 0 <= i < |table| :: objects[i] == table[i].o
  {
    seq(|table|, i requires 0 <= i < |table| => table[i].o)
  }

  lemma HitsSplit(t: Triple, a: set<Id>, b: set<Id>)
    requires a !! b
    ensures multiset(Hits(t, a + b)) == multiset(Hits(t, a)) + multiset(Hits(t, b))
  {}

  /** Asking for two disjoint sets of ids at once gives the same triples as asking twice. */
  lemma {:induction false} JoinedSplit(index: Index, a: set<Id>, b: set<Id>)
    requires a !! b
    ensures multiset(Joined(index, a + b)) == multiset(Joined(index, a)) + multiset(Joined(index, b))
  {
    if index != [] {
      JoinedSplit(index[1..], a, b);
      HitsSplit(index[0], a, b);
      hide Hits;
    }
  }

  lemma ReachesNext(index: Index, isBlank: Id -> bool, seeds: set<Id>, x: Id, y: Id)
    requires Reaches(index, isBlank, seeds, 0, x) && Leads(index, isBlank, x, y)
    ensures Reaches(index, isBlank, seeds, 1, y)
  {
    var path :| Path(index, isBlank, path) && path[0] in seeds && path[|path| - 1] == x;
    var longer := path + [y];
    assert Path(index, isBlank, longer) && |longer| > 1 && longer[0] in seeds && longer[|longer| - 1] == y;
  }

  lemma SeedReached(index: Index, isBlank: Id -> bool, seeds: set<Id>, x: Id)
    requires x in seeds
    ensures Reaches(index, isBlank, seeds, 0, x)
  {
    assert Path(index, isBlank, [x]);
  }

  /** A set that the seeds and the set itself lead into has everything that is reached. */
  lemma {:induction false} PathStaysInside(index: Index, isBlank: Id -> bool, seeds: set<Id>, seen: set<Id>, path: seq<Id>)
    requires Path(index, isBlank, path) && |path| > 1 && path[0] in seeds
    requires LeadsInto(index, isBlank, seeds + seen, seen)
    ensures path[|path| - 1] in seen
    decreases |path|
  {
    var k := |path| - 1;
    assert Leads(index, isBlank, path[k - 1], path[k]);
    if k > 1 {
      PathStaysInside(index, isBlank, seeds, seen, path[..k]);
    }
  }

  /** The ids that are reached from the seeds in at least one step are the only set of reached ids
      that the seeds and the set itself lead into. */
  lemma ClosureUnique(index: Index, isBlank: Id -> bool, seeds: set<Id>, seen: set<Id>)
    requires LeadsInto(index, isBlank, seeds + seen, seen) && AllReached(index, isBlank, seeds, seen)
    ensures forall x :: x in seen <==> Reaches(index, isBlank, seeds, 1, x)
  {
    forall x | Reaches(index, isBlank, seeds, 1, x)
      ensures x in seen
    {
      var path :| Path(index, isBlank, path) && |path| > 1 && path[0] in seeds && path[|path| - 1] == x;
      PathStaysInside(index, isBlank, seeds, seen, path);
    }
  }

  /** The seeds and what is reached from them in steps are all that is reached. */
  lemma ReachedIff(index: Index, isBlank: Id -> bool, seeds: set<Id>, x: Id)
    ensures Reaches(index, isBlank, seeds, 0, x) <==> x in seeds || Reaches(index, isBlank, seeds, 1, x)
  {
    if Reaches(index, isBlank, seeds, 0, x) && x !in seeds {
      var path :| Path(index, isBlank, path) && path[0] in seeds && path[|path| - 1] == x;
      assert |path| > 1;
    }
    if x in seeds {
      SeedReached(index, isBlank, seeds, x);
    }
  }

  /** Reaching is the least fixed point: any set that holds the seeds and that it leads into itself
      holds everything reached. */
  lemma ReachedIsLeast(index: Index, isBlank: Id -> bool, seeds: set<Id>, closed: set<Id>, x: Id)
    requires seeds <= closed && LeadsInto(index, isBlank, closed, closed)
    requires Reaches(index, isBlank, seeds, 0, x)
    ensures x in closed
  {
    ReachedIff(index, isBlank, seeds, x);
    if x !in seeds {
      assert seeds + closed == closed;
      var path :| Path(index, isBlank, path) && |path| > 1 && path[0] in seeds && path[|path| - 1] == x;
      PathStaysInside(index, isBlank, seeds, closed, path);
    }
  }

  // ---- Rounds -------------------------------------------------------------------------------------

  /** What holds between two rounds: the blank nodes in `seen` were reached, and all of them but the
      `pending` ones have been expanded. */
  ghost predicate Between(index: Index, isBlank: Id -> bool, seeds: set<Id>, seen: set<Id>, pending: set<Id>) {
    && pending <= seen
    && LeadsInto(index, isBlank, seeds + (seen - pending), seen)
    && AllReached(index, isBlank, seeds, seen)
  }

  ghost function BlankObjects(table: seq<Triple>, isBlank: Id -> bool): set<Id> {
    set t | t in table && isBlank(t.o) :: t.o
  }

  ghost function BlankIds(ids: seq<Id>, isBlank: Id -> bool): set<Id> {
    set id | id in ids && isBlank(id)
  }

  lemma LeadsToBlankObjects(index: Index, isBlank: Id -> bool, ids: set<Id>, y: Id)
    ensures y in BlankObjects(Joined(index, ids), isBlank) <==> exists x :: x in ids && Leads(index, isBlank, x, y)
  {
    if y in BlankObjects(Joined(index, ids), isBlank) {
      var t :| t in Joined(index, ids) && isBlank(t.o) && t.o == y;
      JoinedIff(index, ids, t);
      var x :| x in ids && Matches(x, t);
      assert Leads(index, isBlank, x, y);
    }
    if x :| x in ids && Leads(index, isBlank, x, y) {
      var t :| t in index && Matches(x, t) && t.o == y;
      JoinedIff(index, ids, t);
    }
  }

  /** Expanding the pending ids, whose new blank objects become the pending ones. */
  lemma AfterRound(index: Index, isBlank: Id -> bool, seeds: set<Id>, seen: set<Id>, pending: set<Id>)
    requires Between(index, isBlank, seeds, seen, pending)
    ensures var found := BlankObjects(Joined(index, pending), isBlank);
            Between(index, isBlank, seeds, seen + found, found - seen)
  {
    var found := BlankObjects(Joined(index, pending), isBlank);
    forall y | y in found
      ensures Reaches(index, isBlank, seeds, 1, y)
    {
      LeadsToBlankObjects(index, isBlank, pending, y);
      var x :| x in pending && Leads(index, isBlank, x, y);
      ReachedIff(index, isBlank, seeds, x);
      ReachesNext(index, isBlank, seeds, x, y);
    }
    forall x, y | x in seeds + (seen + found - (found - seen)) && Leads(index, isBlank, x, y)
      ensures y in seen + found
    {
      if x in pending {
        LeadsToBlankObjects(index, isBlank, pending, y);
      } else {
        assert x in seeds + (seen - pending);
      }
    }
  }

  /** The first round: nothing has been seen, and the seeds are expanded. */
  lemma AfterFirstRound(index: Index, isBlank: Id -> bool, seeds: set<Id>)
    ensures var found := BlankObjects(Joined(index, seeds), isBlank);
            Between(index, isBlank, seeds, found, found)
  {
    var found := BlankObjects(Joined(index, seeds), isBlank);
    forall y | y in found
      ensures Reaches(index, isBlank, seeds, 1, y)
    {
      LeadsToBlankObjects(index, isBlank, seeds, y);
      var x :| x in seeds && Leads(index, isBlank, x, y);
      SeedReached(index, isBlank, seeds, x);
      ReachesNext(index, isBlank, seeds, x, y);
    }
    forall x, y | x in seeds + (found - found) && Leads(index, isBlank, x, y)
      ensures y in found
    {
      LeadsToBlankObjects(index, isBlank, seeds, y);
    }
  }

  /** Tables with the same triples have the same blank objects. */
  lemma SameBlankObjects(table: seq<Triple>, other: seq<Triple>, isBlank: Id -> bool)
    requires multiset(table) == multiset(other)
    ensures BlankIds(ObjectColumn(table), isBlank) == BlankObjects(other, isBlank)
  {
    forall t: Triple
      ensures t in table <==> t in other
    {
      assert t in table <==> t in multiset(table);
      assert t in other <==> t in multiset(other);
    }
    assert forall t | t in table :: t.o in ObjectColumn(table);
  }

  ghost function Objects(index: Index): set<Id> {
    set t | t in index :: t.o
  }

  /** Every round that finds blank nodes leaves fewer to be found. */
  lemma RoundShrinks(index: Index, isBlank: Id -> bool, seen: set<Id>, pending: set<Id>, found: set<Id>)
    requires found == BlankObjects(Joined(index, pending), isBlank) - seen && found != {}
    ensures |Objects(index) - (seen + found)| < |Objects(index) - seen|
  {
    var y :| y in found;
    LeadsToBlankObjects(index, isBlank, pending, y);
    var x :| x in pending && Leads(index, isBlank, x, y);
    var t :| t in index && Matches(x, t) && t.o == y;
    SmallerSet(Objects(index) - (seen + found), Objects(index) - seen, y);
  }

  lemma SmallerSet<T>(a: set<T>, b: set<T>, y: T)
    requires a <= b && y in b && y !in a
    ensures |a| < |b|
  {
    var c := b - a;
    assert a + c == b && a !! c;
    assert y in c;
  }

  /** A round that joins the pending ids and finds the blank nodes `found`. */
  lemma Round(index: Index, isBlank: Id -> bool, seeds: set<Id>, seen: set<Id>, pending: set<Id>, table: seq<Triple>,
              found: set<Id>)
    requires Between(index, isBlank, seeds, seen, pending)
    requires multiset(table) == multiset(Joined(index, pending))
    requires found == BlankIds(ObjectColumn(table), isBlank) - seen
    ensures Between(index, isBlank, seeds, seen + found, found)
    ensures found != {} ==> |Objects(index) - (seen + found)| < |Objects(index) - seen|
  {
    hide Between, Joined, BlankIds, Objects;
    SameBlankObjects(table, Joined(index, pending), isBlank);
    AfterRound(index, isBlank, seeds, seen, pending);
    var all := BlankObjects(Joined(index, pending), isBlank);
    assert seen + found == seen + all;
    if found != {} {
      RoundShrinks(index, isBlank, seen, pending, found);
    }
  }

  lemma BetweenPending(index: Index, isBlank: Id -> bool, seeds: set<Id>, seen: set<Id>, pending: set<Id>)
    requires Between(index, isBlank, seeds, seen, pending)
    ensures pending <= seen
  {}

  /** One triple per match, over all rounds. */
  lemma AddUp(index: Index, before: set<Id>, pending: set<Id>, seen: set<Id>, after: set<Id>, next: set<Id>)
    requires pending <= before <= seen <= after && next == seen - before
    ensures multiset(Joined(index, pending)) + multiset(Joined(index, after - (seen - next)))
         == multiset(Joined(index, after - (before - pending)))
  {
    assert seen - next == before;
    assert after - (before - pending) == pending + (after - before);
    JoinedSplit(index, pending, after - before);
  }

  lemma InResult(index: Index, isBlank: Id -> bool, seeds: set<Id>, seen: set<Id>, result: seq<Triple>, t: Triple)
    requires forall x :: x in seen <==> Reaches(index, isBlank, seeds, 1, x)
    requires multiset(result) == multiset(Joined(index, seeds)) + multiset(Joined(index, seen))
    ensures t in result <==> t in index && exists x :: Reaches(index, isBlank, seeds, 0, x) && Matches(x, t)
  {
    assert t in result <==> t in multiset(result);
    assert t in Joined(index, seeds) <==> t in multiset(Joined(index, seeds));
    assert t in Joined(index, seen) <==> t in multiset(Joined(index, seen));
    JoinedIff(index, seeds, t);
    JoinedIff(index, seen, t);
    ReachedIff(index, isBlank, seeds, t.s);
    ReachedIff(index, isBlank, seeds, UNDEF);
    if x :| Reaches(index, isBlank, seeds, 0, x) && Matches(x, t) {
      assert x == t.s || x == UNDEF;
    }
  }

  lemma {:induction false} JoinedOnce(index: Index, ids: set<Id>, t: Triple)
    requires UNDEF !in ids
    ensures multiset(Joined(index, ids))[t] == if t.s in ids then multiset(index)[t] else 0
  {
    if index != [] {
      assert index == [index[0]] + index[1..];
      JoinedOnce(index[1..], ids, t);
    }
  }

  lemma ReachedIsBlank(index: Index, isBlank: Id -> bool, seeds: set<Id>, x: Id)
    requires Reaches(index, isBlank, seeds, 1, x)
    ensures isBlank(x)
  {
    var path :| Path(index, isBlank, path) && |path| > 1 && path[|path| - 1] == x;
    assert Leads(index, isBlank, path[|path| - 2], x);
  }

  /** The result repeats a triple of the index exactly when its subject is a described resource that is
      also a blank node reached from the described ones. */
  lemma RepeatedIff(index: Index, isBlank: Id -> bool, seeds: set<Id>, seen: set<Id>, result: seq<Triple>, t: Triple)
    requires forall x :: x in seen <==> Reaches(index, isBlank, seeds, 1, x)
    requires multiset(result) == multiset(Joined(index, seeds)) + multiset(Joined(index, seen))
    requires multiset(index)[t] == 1 && UNDEF !in seeds && !isBlank(UNDEF)
    ensures multiset(result)[t] == 2 <==> t.s in seeds && Reaches(index, isBlank, seeds, 1, t.s)
    ensures multiset(result)[t] <= 2
  {
    forall x | x in seen {
      ReachedIsBlank(index, isBlank, seeds, x);
    }
    JoinedOnce(index, seeds, t);
    JoinedOnce(index, seen, t);
  }

  const LOOP := Triple(1, 2, 1)

  lemma LoopReached(isBlank: Id -> bool)
    requires isBlank(1)
    ensures Reaches([LOOP], isBlank, {1}, 1, 1)
  {
    assert LOOP in [LOOP] && Leads([LOOP], isBlank, 1, 1);
    assert Path([LOOP], isBlank, [1, 1]);
  }

  /** A blank node that is described, and leads to itself by a triple: the result has this triple twice. */
  lemma RepeatedExample(isBlank: Id -> bool, seen: set<Id>, result: seq<Triple>)
    requires isBlank(1) && !isBlank(UNDEF)
    requires forall x :: x in seen <==> Reaches([LOOP], isBlank, {1}, 1, x)
    requires multiset(result) == multiset(Joined([LOOP], {1})) + multiset(Joined([LOOP], seen))
    ensures multiset(result)[LOOP] == 2
  {
    hide Reaches, Joined;
    LoopReached(isBlank);
    RepeatedIff([LOOP], isBlank, {1}, seen, result, LOOP);
  }

  // ---- The operation ------------------------------------------------------------------------------

  ghost predicate HasColumns(resources: seq<Resource>, width: nat) {
    forall r | r in resources && r.Variable? && r.column.Some? :: r.column.value < width
  }

  /** The described ids: the fixed ones and all values of the variables. */
  ghost predicate IsDescribed(resources: seq<Resource>, table: Table, id: Id)
    requires HasColumns(resources, |table.columns|)
  {
    exists r :: r in resources && DescribedBy(r, table, id)
  }

  predicate DescribedBy(r: Resource, table: Table, id: Id)
    requires r.Variable? && r.column.Some? ==> r.column.value < |table.columns|
  {
    match r
    case Iri(i) => i == id
    case Variable(column) => column.Some? && id in table.columns[column.value]
  }

  class DescribeRun {
    const index: Index
    const isBlank: Id -> bool
    var finalResult: seq<Triple>
    var alreadySeen: set<Id>

    constructor (index: Index, isBlank: Id -> bool)
      ensures this.index == index && this.isBlank == isBlank && finalResult == [] && alreadySeen == {}
    {
      this.index, this.isBlank := index, isBlank;
      finalResult, alreadySeen := [], {};
    }

    method GetIdsToDescribe(resources: seq<Resource>, table: Table) returns (ids: seq<Id>)
      requires HasColumns(resources, |table.columns|)
      ensures NoDuplicates(ids)
      ensures forall id :: id in ids <==> IsDescribed(resources, table, id)
    {
      var idsToDescribe: set<Id> := {};
      for k := 0 to |resources|
        invariant forall id :: id in idsToDescribe <==> IsDescribed(resources[..k], table, id)
      {
        ghost var before := idsToDescribe;
        assert resources[..k + 1] == resources[..k] + [resources[k]];
        match resources[k] {
          case Iri(id) =>
            idsToDescribe := idsToDescribe + {id};
          case Variable(column) =>
            if column.Some? {
              idsToDescribe := idsToDescribe + set id | id in table.columns[column.value];
            }
        }
        assert forall id :: id in idsToDescribe <==> id in before || DescribedBy(resources[k], table, id);
      }
      assert resources[..|resources|] == resources;
      ids := InSomeOrder(idsToDescribe);
      assert forall id :: id in ids <==> id in IdsOf(ids);
    }

    /** The order in which a hash set is traversed is not known. */
    method InSomeOrder(ids: set<Id>) returns (result: seq<Id>)
      ensures NoDuplicates(result) && IdsOf(result) == ids
    {
      var rest := ids;
      result := [];
      while rest != {}
        invariant NoDuplicates(result) && IdsOf(result) + rest == ids && IdsOf(result) !! rest
        decreases |rest|
      {
        var id :| id in rest;
        assert id !in IdsOf(result);
        assert IdsOf(result + [id]) == IdsOf(result) + {id};
        result, rest := result + [id], rest - {id};
      }
    }

    /** The blank nodes of the input that have not been seen before, each of them once. */
    method GetNewBlankNodes(input: seq<Id>) returns (result: seq<Id>)
      modifies this`alreadySeen
      ensures NoDuplicates(result)
      ensures IdsOf(result) == BlankIds(input, isBlank) - old(alreadySeen)
      ensures alreadySeen == old(alreadySeen) + IdsOf(result)
    {
      var resultColumn := new Id[|input|];
      var i := 0;
      for k := 0 to |input|
        invariant 0 <= i <= k
        invariant NoDuplicates(resultColumn[..i])
        invariant IdsOf(resultColumn[..i]) == BlankIds(input[..k], isBlank) - old(alreadySeen)
        invariant alreadySeen == old(alreadySeen) + IdsOf(resultColumn[..i])
      {
        assert input[..k + 1] == input[..k] + [input[k]];
        if !isBlank(input[k]) {
          continue;
        }
        var isNew := input[k] !in alreadySeen;
        alreadySeen := alreadySeen + {input[k]};
        if !isNew {
          continue;
        }
        ghost var before := resultColumn[..i];
        assert input[k] !in IdsOf(before);
        resultColumn[i] := input[k];
        i := i + 1;
        assert resultColumn[..i] == before + [input[k]];
        assert IdsOf(resultColumn[..i]) == IdsOf(before) + {input[k]};
      }
      assert input[..|input|] == input;
      return resultColumn[..i];
    }

    method JoinWithFullIndex(ids: seq<Id>) returns (table: seq<Triple>)
      requires NoDuplicates(ids)
      ensures multiset(table) == multiset(Joined(index, IdsOf(ids)))
    {
      table := Joined(index, set id | id in ids);
    }

    method RecursivelyAddBlankNodes(blankNodes: seq<Id>, ghost seeds: set<Id>)
      requires NoDuplicates(blankNodes) && Between(index, isBlank, seeds, alreadySeen, IdsOf(blankNodes))
      modifies this
      ensures Between(index, isBlank, seeds, alreadySeen, {}) && old(alreadySeen) <= alreadySeen
      ensures multiset(finalResult) == old(multiset(finalResult))
                + multiset(Joined(index, alreadySeen - (old(alreadySeen) - IdsOf(blankNodes))))
      decreases |Objects(index) - alreadySeen|, |blankNodes|
    {
      hide Between, Joined, BlankIds, Objects, ObjectColumn;
      if blankNodes == [] {
        assert IdsOf(blankNodes) == {};
        assert alreadySeen - (old(alreadySeen) - {}) == {};
        JoinedNothing(index);
        return;
      }
      var table := JoinWithFullIndex(blankNodes);
      finalResult := finalResult + table;
      var newBlankNodes := GetNewBlankNodes(ObjectColumn(table));
      ghost var seen := alreadySeen;
      BetweenPending(index, isBlank, seeds, old(alreadySeen), IdsOf(blankNodes));
      Round(index, isBlank, seeds, old(alreadySeen), IdsOf(blankNodes), table, IdsOf(newBlankNodes));
      assert newBlankNodes != [] ==> newBlankNodes[0] in IdsOf(newBlankNodes);
      RecursivelyAddBlankNodes(newBlankNodes, seeds);
      AddUp(index, old(alreadySeen), IdsOf(blankNodes), seen, alreadySeen, IdsOf(newBlankNodes));
    }

    /** Each triple occurs once for each described id it matches, and once more for each blank node it
        matches that is reached from the described ids in one or more steps. */
    method ComputeResult(resources: seq<Resource>, table: Table) returns (ghost seeds: set<Id>)
      requires HasColumns(resources, |table.columns|)
      requires finalResult == [] && alreadySeen == {}
      modifies this
      ensures forall id :: id in seeds <==> IsDescribed(resources, table, id)
      ensures forall x :: x in alreadySeen <==> Reaches(index, isBlank, seeds, 1, x)
      ensures multiset(finalResult) == multiset(Joined(index, seeds)) + multiset(Joined(index, alreadySeen))
      ensures forall t :: t in finalResult <==>
                t in index && exists x :: Reaches(index, isBlank, seeds, 0, x) && Matches(x, t)
    {
      var ids := GetIdsToDescribe(resources, table);
      seeds := IdsOf(ids);
      assert forall id :: id in seeds <==> id in ids;
      hide Joined, BlankIds, IdsOf, ObjectColumn, Leads, Reaches, IsDescribed, BlankObjects, HasColumns, LeadsInto, AllReached;
      finalResult := JoinWithFullIndex(ids);
      var first := finalResult;
      var blankNodes := GetNewBlankNodes(ObjectColumn(first));
      AfterFirstRound(index, isBlank, seeds);
      SameBlankObjects(first, Joined(index, seeds), isBlank);
      assert IdsOf(blankNodes) == alreadySeen == BlankObjects(Joined(index, seeds), isBlank);
      ghost var seen := alreadySeen;
      RecursivelyAddBlankNodes(blankNodes, seeds);
      assert alreadySeen - (seen - IdsOf(blankNodes)) == alreadySeen;
      assert seeds + (alreadySeen - {}) == seeds + alreadySeen;
      ClosureUnique(index, isBlank, seeds, alreadySeen);
      forall t {
        InResult(index, isBlank, seeds, alreadySeen, finalResult, t);
      }
    }
  }
}
