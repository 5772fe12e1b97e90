/**
 The counter of connected subgraphs: loops over bit sets around a recursion that threads the
 number found so far and stops once it exceeds the budget.
 */
module CountConnectedSubgraphs {
  import opened Bitset
  import opened SubgraphTheory

  /** One word per node; the bits of a word are the neighbors of the node. */
  type WordGraph = seq<Word>

  ghost function AsSets(g: WordGraph): (s: Graph)
    ensures |s| == |g|
  {
    seq(|g|, i requires 0 <= i < |g| => Members(g[i]))
  }

  /** What the source asks of a graph: at most 64 nodes and neighbors that are nodes. The shift
      `1ULL << neighbors.size()` is defined only for fewer than 64 neighbors, which self-loops
      could exceed in a graph of exactly 64 nodes. */
  ghost predicate ValidGraph(g: WordGraph) {
    && |g| <= 64
    && Valid(AsSets(g))
    && (|g| == 64 ==> LoopFree(AsSets(g)))
  }

  /** The set of nodes of `v` selected by the bits of `i`. */
  ghost function Selected(v: seq<nat>, i: nat): set<nat> {
    set k | 0 <= k < |v| && Bit(i, k) :: v[k]
  }

  ghost predicate Increasing(v: seq<nat>) {
    forall j, k | 0 <= j < k < |v| :: v[j] < v[k]
  }

  // ---- Subset indices enumerate subsets ------------------------------------------------------

  lemma SelectedDiffers(v: seq<nat>, i: nat, j: nat)
    requires Increasing(v) && i < Shift(|v|) && j < Shift(|v|)
    ensures Selected(v, i) == Selected(v, j) ==> i == j
  {
    if Selected(v, i) == Selected(v, j) {
      forall k | 0 <= k < |v|
        ensures Bit(i, k) == Bit(j, k)
      {
        assert Bit(i, k) <==> v[k] in Selected(v, i);
        assert Bit(j, k) <==> v[k] in Selected(v, j);
      }
      SameBits(i, j, |v|);
    }
  }

  /** Every subset of the nodes in `v` has an index below `1 << |v|`. */
  lemma {:induction false} SelectedReaches(v: seq<nat>, a: set<nat>) returns (i: nat)
    requires forall x | x in a :: x in v
    requires Increasing(v)
    ensures i < Shift(|v|) && Selected(v, i) == a
  {
    if v == [] {
      i := 0;
      assert a == {};
    } else {
      var w := v[1..];
      var rest := a - {v[0]};
      forall x | x in rest
        ensures x in w
      {
        var k :| 0 <= k < |v| && v[k] == x;
        assert x == w[k - 1];
      }
      var r := SelectedReaches(w, rest);
      i := (if v[0] in a then 1 else 0) + 2 * r;
      assert i / 2 == r && (i % 2 == 1 <==> v[0] in a);
      forall x
        ensures x in Selected(v, i) <==> x in a
      {
        SelectedSplit(v, i, x);
      }
    }
  }

  lemma SelectedSplit(v: seq<nat>, i: nat, x: nat)
    requires v != []
    ensures x in Selected(v, i) <==> (i % 2 == 1 && x == v[0]) || x in Selected(v[1..], i / 2)
  {
    var w := v[1..];
    if x in Selected(v, i) {
      var k :| 0 <= k < |v| && Bit(i, k) && v[k] == x;
      if k > 0 {
        assert Bit(i / 2, k - 1) && w[k - 1] == x;
      }
    }
    if i % 2 == 1 && x == v[0] {
      assert Bit(i, 0) && v[0] == x;
    }
    if x in Selected(w, i / 2) {
      var k :| 0 <= k < |w| && Bit(i / 2, k) && w[k] == x;
      assert Bit(i, k + 1) && v[k + 1] == x;
    }
  }

  lemma SelectedZero(v: seq<nat>)
    ensures Selected(v, 0) == {}
  {
    forall k | 0 <= k < |v|
      ensures !Bit(0, k)
    {
      BitZero(k);
    }
  }

  // ---- The loops -------------------------------------------------------------------------------

  /** The neighbors of the nodes, without the ignored ones. */
  method ComputeNeighbors(g: WordGraph, nodes: Word, ignored: Word) returns (neighbors: Word)
    requires ValidGraph(g) && Members(nodes) <= Below(|g|)
    ensures Members(neighbors) == Neighbors(AsSets(g), Members(nodes)) - Members(ignored)
  {
    ghost var s := AsSets(g);
    ghost var done := {};
    neighbors := 0;
    MembersZero();
    for i := 0 to 64
      invariant done == Members(nodes) * Below(i)
      invariant Members(neighbors) == Neighbors(s, done)
    {
      assert Below(i + 1) == Below(i) + {i};
      if Bit(nodes, i) {
        assert i in Members(nodes);
        OrIsWord(neighbors, g[i]);
        MembersOr(neighbors, g[i]);
        neighbors := Or(neighbors, g[i]);
        assert Neighbors(s, done + {i}) == Neighbors(s, done) + s[i];
        done := done + {i};
      }
    }
    assert done == Members(nodes);
    AndNotBound(neighbors, ignored);
    MembersAndNot(neighbors, ignored);
    neighbors := AndNot(neighbors, ignored);
  }

  /** The positions of the set bits, in increasing order. */
  method BitsetToVector(bitset: Word) returns (result: seq<nat>)
    ensures Increasing(result)
    ensures forall x :: x in result <==> x in Members(bitset)
  {
    result := [];
    for i := 0 to 64
      invariant Increasing(result)
      invariant forall k | 0 <= k < |result| :: result[k] < i
      invariant forall x :: x in result <==> x < i && x in Members(bitset)
    {
      if Bit(bitset, i) {
        result := result + [i];
      }
    }
  }

  lemma {:induction false} IncreasingSize(v: seq<nat>, a: set<nat>)
    requires Increasing(v) && forall x :: x in v <==> x in a
    ensures |v| == |a|
  {
    if v == [] {
      assert a == {};
    } else {
      var last := v[|v| - 1];
      var rest := v[..|v| - 1];
      forall x
        ensures x in rest <==> x in a - {last}
      {
        if x in rest {
          var k :| 0 <= k < |rest| && rest[k] == x;
          assert v[k] < last;
        }
      }
      IncreasingSize(rest, a - {last});
    }
  }

  /** The `i`-th subset of the given nodes, as a word. */
  method SubsetIndexToBitmap(i: nat, neighbors: seq<nat>) returns (subset: Word)
    requires forall x | x in neighbors :: x < 64
    ensures Members(subset) == Selected(neighbors, i)
  {
    subset := 0;
    MembersZero();
    for k := 0 to |neighbors|
      invariant Members(subset) == Selected(neighbors[..k], i)
    {
      assert Selected(neighbors[..k + 1], i) == Selected(neighbors[..k], i) + if Bit(i, k) then {neighbors[k]} else {} by {
        SelectedAppend(neighbors, i, k);
      }
      if Bit(i, k) {
        assert neighbors[k] in neighbors;
        ShiftIsWord(neighbors[k]);
        OrIsWord(subset, Shift(neighbors[k]));
        MembersOr(subset, Shift(neighbors[k]));
        MembersShift(neighbors[k]);
        subset := Or(subset, Shift(neighbors[k]));
      }
    }
    assert neighbors[..|neighbors|] == neighbors;
  }

  lemma SelectedAppend(v: seq<nat>, i: nat, k: nat)
    requires k < |v|
    ensures Selected(v[..k + 1], i) == Selected(v[..k], i) + if Bit(i, k) then {v[k]} else {}
  {
    SelectedStays(v, i, k);
    forall x | x in Selected(v[..k + 1], i)
      ensures x in Selected(v[..k], i) || (Bit(i, k) && x == v[k])
    {
      SelectedBefore(v, i, k, x);
    }
  }

  lemma SelectedStays(v: seq<nat>, i: nat, k: nat)
    requires k < |v|
    ensures Selected(v[..k], i) <= Selected(v[..k + 1], i) && (Bit(i, k) ==> v[k] in Selected(v[..k + 1], i))
  {
    var q := v[..k + 1];
    assert q[k] == v[k] && forall j | 0 <= j < k :: q[j] == v[..k][j];
  }

  lemma SelectedBefore(v: seq<nat>, i: nat, k: nat, x: nat)
    requires k < |v| && x in Selected(v[..k + 1], i)
    ensures x in Selected(v[..k], i) || (Bit(i, k) && x == v[k])
  {
    var j :| 0 <= j < k + 1 && Bit(i, j) && v[..k + 1][j] == x;
    assert j < k ==> v[..k][j] == x;
  }

  /** The extensions whose first step is among the first `i` non-empty subsets. */
  ghost function Tried(g: Graph, s: set<nat>, x: set<nat>, v: seq<nat>, i: nat): set<set<nat>> {
    set u | u in Extensions(g, s, x) && exists j :: 1 <= j < i && u * Neighbors(g, s) == Selected(v, j)
  }

  lemma TriedNone(g: Graph, s: set<nat>, x: set<nat>, v: seq<nat>)
    ensures Tried(g, s, x, v, 1) == {}
  {}

  lemma TriedStep(g: Graph, s: set<nat>, x: set<nat>, v: seq<nat>, i: nat)
    requires Increasing(v) && 1 <= i < Shift(|v|)
    ensures |Tried(g, s, x, v, i + 1)| == |Tried(g, s, x, v, i)| + |Piece(g, s, x, Selected(v, i))|
  {
    var before, now := Tried(g, s, x, v, i), Piece(g, s, x, Selected(v, i));
    forall u | u in Extensions(g, s, x)
      ensures u in Tried(g, s, x, v, i + 1) <==> u in before || u in now
    {
      if u in Tried(g, s, x, v, i + 1) {
        var j :| 1 <= j < i + 1 && u * Neighbors(g, s) == Selected(v, j);
        assert j < i || j == i;
      }
    }
    assert Tried(g, s, x, v, i + 1) == before + now;
    forall u | u in before
      ensures u !in now
    {
      var j :| 1 <= j < i && u * Neighbors(g, s) == Selected(v, j);
      SelectedDiffers(v, j, i);
    }
  }

  lemma TriedAll(g: Graph, s: set<nat>, x: set<nat>, v: seq<nat>)
    requires Increasing(v) && forall y :: y in v <==> y in Neighbors(g, s) - x
    ensures Tried(g, s, x, v, Shift(|v|)) == Extensions(g, s, x)
  {
    forall u | u in Extensions(g, s, x)
      ensures u in Tried(g, s, x, v, Shift(|v|))
    {
      var a := u * Neighbors(g, s);
      SplitExtension(g, s, x, u, a);
      var j := SelectedReaches(v, a);
      SelectedZero(v);
    }
  }

  lemma TriedIsSmaller(g: Graph, s: set<nat>, x: set<nat>, v: seq<nat>, i: nat)
    ensures |Tried(g, s, x, v, i)| <= |Extensions(g, s, x)|
  {
    SubsetSize(Tried(g, s, x, v, i), Extensions(g, s, x));
  }

  /** Nested calls exclude strictly more nodes and leave fewer than 64 neighbors to choose from. */
  lemma NestedCall(g: Graph, nodes: set<nat>, ignored: set<nat>, a: set<nat>)
    requires Valid(g) && |g| <= 64 && a != {} && a <= Neighbors(g, nodes) - ignored
    requires nodes <= Below(|g|) && ignored <= Below(64)
    ensures nodes + a <= Below(|g|)
    ensures |ignored| < |Closed(g, nodes, ignored)| <= 64
    ensures |Neighbors(g, nodes + a) - Closed(g, nodes, ignored)| < 64
  {
    NeighborsAreNodes(g, nodes);
    NeighborsAreNodes(g, nodes + a);
    BelowSize(64);
    BelowGrows(|g|, 64);
    hide Neighbors, Below, Valid;
    var y :| y in a;
    var c := Closed(g, nodes, ignored);
    assert y !in ignored && y in c;
    SubsetSize(ignored, c);
    SubsetSize(c, Below(64));
    StrictSubsetSize(Neighbors(g, nodes + a) - c, Below(64), y);
  }

  lemma BelowGrows(m: nat, n: nat)
    requires m <= n
    ensures Below(m) <= Below(n)
  {}

  lemma StrictSubsetSize(a: set<nat>, b: set<nat>, y: nat)
    requires a <= b && y in b && y !in a
    ensures |a| < |b|
  {
    SubsetSize(a, b);
  }

  /** One iteration of the loop over the subset indices. */
  lemma SubsetStep(g: Graph, nodes: set<nat>, ignored: set<nat>, v: seq<nat>, i: nat, a: set<nat>)
    requires Valid(g) && |g| <= 64 && nodes <= Below(|g|) && ignored <= Below(64)
    requires Increasing(v) && forall y :: y in v <==> y in Neighbors(g, nodes) - ignored
    requires 1 <= i < Shift(|v|) && a == Selected(v, i)
    ensures a != {} && a <= Neighbors(g, nodes) - ignored
    ensures |Tried(g, nodes, ignored, v, i + 1)|
         == |Tried(g, nodes, ignored, v, i)| + 1 + |Extensions(g, nodes + a, Closed(g, nodes, ignored))|
    ensures |Tried(g, nodes, ignored, v, i + 1)| <= |Extensions(g, nodes, ignored)|
  {
    SelectedZero(v);
    SelectedDiffers(v, i, 0);
    TriedStep(g, nodes, ignored, v, i);
    PieceSize(g, nodes, ignored, a);
    TriedIsSmaller(g, nodes, ignored, v, i + 1);
  }

  lemma NewIgnored(g: Graph, nodes: Word, ignored: Word, neighbors: Word)
    requires Members(neighbors) == Neighbors(g, Members(nodes)) - Members(ignored)
    ensures Or(ignored, neighbors) < TWO_TO_64 && Or(Or(ignored, neighbors), nodes) < TWO_TO_64
    ensures Members(Or(Or(ignored, neighbors), nodes)) == Closed(g, Members(nodes), Members(ignored))
  {
    OrIsWord(ignored, neighbors);
    OrIsWord(Or(ignored, neighbors), nodes);
    MembersOr(ignored, neighbors);
    MembersOr(Or(ignored, neighbors), nodes);
  }

  /** Adds to `count` the number of extensions of `nodes` that avoid `ignored`, up to the budget. */
  method CountSubgraphsRecursively(g: WordGraph, nodes: Word, ignored: Word, count: nat, budget: nat)
    returns (r: nat)
    requires ValidGraph(g) && Members(nodes) <= Below(|g|) && count <= budget
    requires |Neighbors(AsSets(g), Members(nodes)) - Members(ignored)| < 64
    ensures r == CappedAt(count + |Extensions(AsSets(g), Members(nodes), Members(ignored))|, budget)
    decreases 64 - |Members(ignored)|
  {
    hide Extensions, Closed, Tried, Selected, Bit, Shift;
    ghost var s, n, x := AsSets(g), Members(nodes), Members(ignored);
    var neighbors := ComputeNeighbors(g, nodes, ignored);
    var v := BitsetToVector(neighbors);
    NewIgnored(s, nodes, ignored, neighbors);
    var newIgnored := Or(Or(ignored, neighbors), nodes);
    IncreasingSize(v, Members(neighbors));
    ShiftIsWord(|v|);
    var upperBound := Shift(|v|);
    var i := 1;
    r := count;
    TriedNone(s, n, x, v);
    while i < upperBound
      invariant 1 <= i <= upperBound
      invariant r == CappedAt(count + |Tried(s, n, x, v, i)|, budget)
    {
      ghost var a := Selected(v, i);
      SubsetStep(s, n, x, v, i, a);
      r := r + 1;
      if r > budget {
        return budget + 1;
      }
      var subset := SubsetIndexToBitmap(i, v);
      OrIsWord(nodes, subset);
      MembersOr(nodes, subset);
      NestedCall(s, n, x, a);
      r := CountSubgraphsRecursively(g, Or(nodes, subset), newIgnored, r, budget);
      i := i + 1;
    }
    TriedAll(s, n, x, v);
  }

  /** The number of connected subgraphs, or `budget + 1` when there are more than `budget`. */
  method CountSubgraphs(g: WordGraph, budget: nat) returns (count: nat)
    requires ValidGraph(g)
    ensures count == CountResult(AsSets(g), budget)
    ensures Symmetric(AsSets(g)) && LoopFree(AsSets(g)) ==> count == CappedAt(|ConnectedSets(AsSets(g))|, budget)
  {
    ghost var s := AsSets(g);
    count := 0;
    assert Found(s, 0) == 0;
    for i := 0 to |g|
      invariant count == CappedAt(Found(s, i), budget)
    {
      FoundMonotone(s, i + 1, |g|);
      count := count + 1;
      if count > budget {
        CountIsRight(s, budget);
        return budget + 1;
      }
      ShiftIsWord(i);
      MembersShift(i);
      MembersLower(i);
      StartNeighbors(g, i);
      count := CountSubgraphsRecursively(g, Shift(i), Shift(i) - 1, count, budget);
    }
    CountIsRight(s, budget);
  }

  lemma CountIsRight(s: Graph, budget: nat)
    ensures Valid(s) && Symmetric(s) && LoopFree(s) ==> CountResult(s, budget) == CappedAt(|ConnectedSets(s)|, budget)
  {
    if Valid(s) && Symmetric(s) && LoopFree(s) {
      CountsConnectedSetsIffLoopFree(s);
    }
  }

  lemma {:induction false} FoundMonotone(s: Graph, i: nat, n: nat)
    requires i <= n
    ensures Found(s, i) <= Found(s, n)
    decreases n
  {
    if i < n {
      FoundMonotone(s, i, n - 1);
    }
  }

  lemma StartNeighbors(g: WordGraph, i: nat)
    requires ValidGraph(g) && i < |g|
    ensures |Neighbors(AsSets(g), {i}) - Below(i)| < 64
  {
    var s := AsSets(g);
    NeighborsAreNodes(s, {i});
    BelowSize(|g|);
    var n := Neighbors(s, {i}) - Below(i);
    SubsetSize(n, Below(|g|));
    if |g| == 64 {
      assert !Edge(s, i, i);
      StrictSubsetSize(n, Below(|g|), i);
    }
  }
}
